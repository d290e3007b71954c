/** The input schemas of the authentication routes as a field validator, with the
    default messages of the marshmallow 3 schema library. */
module Schemas {
  import opened Wrappers

  /** A JSON value, down to the distinction the schemas make. */
  datatype Value = Str(text: string) | Null | NonString

  /** A request body: a JSON object, or anything else (an array, a scalar, no body). */
  datatype Json = Object(fields: map<string, Value>) | NotObject

  /** `fields.String` with a minimum length (0 when no `Length` validator is attached),
      or `fields.Email`. */
  datatype Kind = Text(minLength: nat) | EmailAddress

  /** A required field of a schema. */
  datatype Field = Field(name: string, kind: Kind)

  type Schema = seq<Field>

  /** Field name to error messages, as `Schema.validate` returns them. */
  type Errors = map<string, seq<string>>

  const RegisterSchema: Schema :=
    [Field("username", Text(1)), Field("email", EmailAddress), Field("password", Text(6))]
  const LoginSchema: Schema := [Field("email", EmailAddress), Field("password", Text(0))]
  const ResetRequestSchema: Schema := [Field("email", EmailAddress)]
  const ResetSchema: Schema := [Field("password", Text(6))]

  const MissingMessage := "Missing data for required field."
  const NullMessage := "Field may not be null."
  const NotStringMessage := "Not a valid string."
  const NotEmailMessage := "Not a valid email address."
  const UnknownMessage := "Unknown field."
  const InputTypeMessage := "Invalid input type."
  /** Where the library files errors that concern the whole body. */
  const SchemaKey := "_schema"

  /** Decimal digits of `n`. */
  function Decimal(n: nat): string
  {
    if n < 10 then [('0' as int + n) as char]
    else Decimal(n / 10) + [('0' as int + n % 10) as char]
  }

  function TooShortMessage(min: nat): string
  {
    "Shorter than minimum length " + Decimal(min) + "."
  }

  /** Reference definition: the values a field of kind `k` accepts. */
  predicate Accepts(k: Kind, v: Value, isEmail: string -> bool)
  {
    v.Str? &&
    match k
    case Text(min) => |v.text| >= min
    case EmailAddress => isEmail(v.text)
  }

  /** The names a schema declares. */
  function Names(schema: Schema): set<string>
  {
    set i | 0 <= i < |schema| :: schema[i].name
  }

  /** The object `fields` holds an accepted value for the declared field `f`. */
  predicate Admits(f: Field, fields: map<string, Value>, isEmail: string -> bool)
  {
    f.name in fields && Accepts(f.kind, fields[f.name], isEmail)
  }

  /** A body the schema admits: an object with every declared field present and
      accepted, and no field it does not declare. */
  predicate Conforms(schema: Schema, body: Json, isEmail: string -> bool)
  {
    && body.Object?
    && (forall i :: 0 <= i < |schema| ==> Admits(schema[i], body.fields, isEmail))
    && (forall k :: k in body.fields ==> k in Names(schema))
  }

  /** The error a single required field reports for its value (`None` when absent). */
  function FieldError(f: Field, v: Option<Value>, isEmail: string -> bool): (r: Option<string>)
    ensures r.None? <==> v.Some? && Accepts(f.kind, v.value, isEmail)
    ensures v.None? ==> r == Some(MissingMessage)
  {
    match v
    case None => Some(MissingMessage)
    case Some(Null) => Some(NullMessage)
    case Some(NonString) => Some(if f.kind.Text? then NotStringMessage else NotEmailMessage)
    case Some(Str(t)) =>
      match f.kind
      case Text(min) => if |t| < min then Some(TooShortMessage(min)) else None
      case EmailAddress => if isEmail(t) then None else Some(NotEmailMessage)
  }

  function Lookup(fields: map<string, Value>, name: string): Option<Value>
  {
    if name in fields then Some(fields[name]) else None
  }

  /** Errors of the declared fields. */
  function DeclaredErrors(schema: Schema, fields: map<string, Value>, isEmail: string -> bool): (r: Errors)
    ensures r.Keys <= Names(schema)
    ensures forall k :: k in r <==>
      (exists i :: 0 <= i < |schema| && schema[i].name == k && !Admits(schema[i], fields, isEmail))
  {
    if |schema| == 0 then map[]
    else
      var rest := DeclaredErrors(schema[1..], fields, isEmail);
      assert forall i :: 1 <= i < |schema| ==> schema[i] == schema[1..][i - 1];
      assert Names(schema) == Names(schema[1..]) + {schema[0].name} by {
        forall x | x in Names(schema) ensures x in Names(schema[1..]) + {schema[0].name} {
          var i :| 0 <= i < |schema| && schema[i].name == x;
          if i > 0 { assert schema[1..][i - 1].name == x; }
        }
      }
      assert FieldError(schema[0], Lookup(fields, schema[0].name), isEmail).None?
        <==> Admits(schema[0], fields, isEmail);
      match FieldError(schema[0], Lookup(fields, schema[0].name), isEmail)
      case None => rest
      case Some(m) => rest[schema[0].name := [m]]
  }

  /** Errors of the fields the schema does not declare. */
  function UnknownErrors(schema: Schema, fields: map<string, Value>): (r: Errors)
    ensures forall k :: k in r <==> k in fields && k !in Names(schema)
    ensures forall k :: k in r ==> r[k] == [UnknownMessage]
  {
    map k | k in fields && k !in Names(schema) :: [UnknownMessage]
  }

  /** `schema().validate(data)`: empty exactly when the body conforms. */
  function Validate(schema: Schema, body: Json, isEmail: string -> bool): (r: Errors)
    ensures r == map[] <==> Conforms(schema, body, isEmail)
    ensures body.NotObject? ==> r == map[SchemaKey := [InputTypeMessage]]
    ensures body.Object? ==> forall k :: k in body.fields && k !in Names(schema) ==> k in r
    ensures body.Object? ==>
      forall i :: 0 <= i < |schema| && !Admits(schema[i], body.fields, isEmail) ==> schema[i].name in r
    ensures body.Object? ==>
      r.Keys == (set i | 0 <= i < |schema| && !Admits(schema[i], body.fields, isEmail) :: schema[i].name)
              + (body.fields.Keys - Names(schema))
  {
    match body
    case NotObject =>
      var r := map[SchemaKey := [InputTypeMessage]];
      assert SchemaKey in r;
      r
    case Object(fields) =>
      var declared := DeclaredErrors(schema, fields, isEmail);
      var unknown := UnknownErrors(schema, fields);
      declared + unknown
  }

  /** The string a conforming body holds under `name`. */
  function StringField(body: Json, name: string): string
    requires body.Object? && name in body.fields && body.fields[name].Str?
  {
    body.fields[name].text
  }

  lemma RegisterNames()
    ensures Names(RegisterSchema) == {"username", "email", "password"}
  {
    var n := Names(RegisterSchema);
    assert RegisterSchema[0].name in n && RegisterSchema[1].name in n && RegisterSchema[2].name in n;
  }

  lemma LoginNames()
    ensures Names(LoginSchema) == {"email", "password"}
  {
    var n := Names(LoginSchema);
    assert LoginSchema[0].name in n && LoginSchema[1].name in n;
  }

  /** Registration needs a non-empty username, an email and a password of at least six
      characters, and no other field. */
  lemma RegisterSchemaRequirements(body: Json, isEmail: string -> bool)
    ensures Validate(RegisterSchema, body, isEmail) == map[] <==>
      && body.Object?
      && body.fields.Keys == {"username", "email", "password"}
      && body.fields["username"].Str? && |body.fields["username"].text| >= 1
      && body.fields["email"].Str? && isEmail(body.fields["email"].text)
      && body.fields["password"].Str? && |body.fields["password"].text| >= 6
  {
    RegisterConforms(body, isEmail);
  }

  /** The registration schema's admission rule, spelled out field by field. */
  lemma RegisterConforms(body: Json, isEmail: string -> bool)
    ensures Conforms(RegisterSchema, body, isEmail) <==>
      && body.Object?
      && body.fields.Keys == {"username", "email", "password"}
      && body.fields["username"].Str? && |body.fields["username"].text| >= 1
      && body.fields["email"].Str? && isEmail(body.fields["email"].text)
      && body.fields["password"].Str? && |body.fields["password"].text| >= 6
  {
    RegisterNames();
    if body.Object? {
      var f := body.fields;
      var rs := RegisterSchema;
      assert (forall i :: 0 <= i < |rs| ==> Admits(rs[i], f, isEmail))
        <==> Admits(rs[0], f, isEmail) && Admits(rs[1], f, isEmail) && Admits(rs[2], f, isEmail);
      assert (forall k :: k in f ==> k in Names(rs)) && "username" in f && "email" in f && "password" in f
        <==> f.Keys == {"username", "email", "password"};
    }
  }

  /** Login needs an email and a password of any length, and no other field. */
  lemma LoginSchemaRequirements(body: Json, isEmail: string -> bool)
    ensures Validate(LoginSchema, body, isEmail) == map[] <==>
      && body.Object?
      && body.fields.Keys == {"email", "password"}
      && body.fields["email"].Str? && isEmail(body.fields["email"].text)
      && body.fields["password"].Str?
  {
    LoginNames();
    if body.Object? {
      var f := body.fields;
      assert (forall i :: 0 <= i < |LoginSchema| ==> Admits(LoginSchema[i], f, isEmail))
        <==> Admits(LoginSchema[0], f, isEmail) && Admits(LoginSchema[1], f, isEmail);
      assert (forall k :: k in f ==> k in Names(LoginSchema)) && "email" in f && "password" in f
        <==> f.Keys == {"email", "password"};
    }
  }

  /** A reset request needs only an email. */
  lemma ResetRequestSchemaRequirements(body: Json, isEmail: string -> bool)
    ensures Validate(ResetRequestSchema, body, isEmail) == map[] <==>
      && body.Object?
      && body.fields.Keys == {"email"}
      && body.fields["email"].Str? && isEmail(body.fields["email"].text)
  {
    assert Names(ResetRequestSchema) == {"email"} by {
      assert ResetRequestSchema[0].name in Names(ResetRequestSchema);
    }
  }

  /** A reset confirmation needs a password of at least six characters. */
  lemma ResetSchemaRequirements(body: Json, isEmail: string -> bool)
    ensures Validate(ResetSchema, body, isEmail) == map[] <==>
      && body.Object?
      && body.fields.Keys == {"password"}
      && body.fields["password"].Str? && |body.fields["password"].text| >= 6
  {
    assert Names(ResetSchema) == {"password"} by {
      assert ResetSchema[0].name in Names(ResetSchema);
    }
  }

  /** The registration errors of a body whose only fault is a five-character password. */
  lemma ShortPasswordRegisterErrors(username: string, email: string, password: string, isEmail: string -> bool)
    requires isEmail(email) && |username| >= 1 && |password| == 5
    ensures var fields := map["username" := Str(username), "email" := Str(email), "password" := Str(password)];
      DeclaredErrors(RegisterSchema, fields, isEmail) == map["password" := [TooShortMessage(6)]]
  {
    var fields := map["username" := Str(username), "email" := Str(email), "password" := Str(password)];
    var tail := RegisterSchema[2..];
    assert tail == [Field("password", Text(6))];
    assert tail[1..] == [];
    assert DeclaredErrors(tail, fields, isEmail) == map["password" := [TooShortMessage(6)]];
    assert RegisterSchema[1..][1..] == tail;
  }

  /** Registration refuses a five-character password, and only on that field. */
  lemma ShortPasswordFailsRegister(username: string, email: string, password: string, isEmail: string -> bool)
    requires isEmail(email) && |username| >= 1 && |password| == 5
    ensures var r := Validate(RegisterSchema,
      Object(map["username" := Str(username), "email" := Str(email), "password" := Str(password)]), isEmail);
      r == map["password" := [TooShortMessage(6)]]
  {
    var fields := map["username" := Str(username), "email" := Str(email), "password" := Str(password)];
    RegisterNames();
    ShortPasswordRegisterErrors(username, email, password, isEmail);
    var u := UnknownErrors(RegisterSchema, fields);
    assert u.Keys == {};
  }

  /** The login schema sets no minimum password length: a five-character password
      passes login validation and is refused, on the password field, at registration. */
  lemma ShortPasswordPassesLoginOnly(username: string, email: string, password: string, isEmail: string -> bool)
    requires isEmail(email) && |username| >= 1 && |password| == 5
    ensures Validate(LoginSchema, Object(map["email" := Str(email), "password" := Str(password)]), isEmail) == map[]
    ensures var r := Validate(RegisterSchema,
      Object(map["username" := Str(username), "email" := Str(email), "password" := Str(password)]), isEmail);
      r == map["password" := [TooShortMessage(6)]]
  {
    LoginSchemaRequirements(Object(map["email" := Str(email), "password" := Str(password)]), isEmail);
    ShortPasswordFailsRegister(username, email, password, isEmail);
  }
}
