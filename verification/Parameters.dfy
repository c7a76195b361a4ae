/** Playbook parameters: validation against a schema and the split into public and secret. */
module Parameters {
  import opened Common

  /** A JSON value; lists, objects and null are `Other`. */
  datatype Value = Text(text: string) | Integer(n: int) | Float(x: real) | NonFinite | Boolean(b: bool) | Other

  datatype Type = StringType | IntegerType | NumberType | BooleanType

  datatype Definition = Definition(
    kind: Type,
    default: Option<Value>,
    choices: Option<seq<Value>>,
    minLength: Option<int>, maxLength: Option<int>,
    minimum: Option<real>, maximum: Option<real>,
    sensitive: bool)

  datatype Property = Property(name: string, definition: Definition)

  predicate Named(properties: seq<Property>, name: string) {
    exists i :: 0 <= i < |properties| && properties[i].name == name
  }

  predicate Distinct(properties: seq<Property>) {
    forall i, j | 0 <= i < j < |properties| :: properties[i].name != properties[j].name
  }

  /** A normalised schema: each property once. */
  datatype Schema = Schema(properties: seq<Property>, required: set<string>) {
    predicate Valid() {
      Distinct(properties)
    }
  }

  // ---------------------------------------------------------------- one value

  predicate HasType(kind: Type, v: Value) {
    match kind
    case StringType => v.Text?
    case BooleanType => v.Boolean?
    case IntegerType => v.Integer?
    case NumberType => v.Integer? || v.Float?
  }

  predicate IsNumber(v: Value) {
    v.Integer? || v.Float?
  }

  function Number(v: Value): real
    requires IsNumber(v)
  {
    if v.Integer? then v.n as real else v.x
  }

  /** Python's `==` on the values that can meet here: 1 equals 1.0. */
  predicate Equal(a: Value, b: Value) {
    a == b || (IsNumber(a) && IsNumber(b) && Number(a) == Number(b))
  }

  predicate WithinBounds(d: Definition, v: Value) {
    && (v.Text? && d.minLength.Some? ==> |v.text| >= d.minLength.value)
    && (v.Text? && d.maxLength.Some? ==> |v.text| <= d.maxLength.value)
    && (IsNumber(v) && d.minimum.Some? ==> Number(v) >= d.minimum.value)
    && (IsNumber(v) && d.maximum.Some? ==> Number(v) <= d.maximum.value)
  }

  predicate Accepts(d: Definition, v: Value) {
    && HasType(d.kind, v)
    && (d.choices.Some? ==> exists i :: 0 <= i < |d.choices.value| && Equal(v, d.choices.value[i]))
    && WithinBounds(d, v)
    && (d.sensitive ==> v.Text?)
  }

  // ---------------------------------------------------------------- the split

  type Values = map<string, Value>

  datatype Split = Split(public: Values, secret: map<string, string>)

  const EMPTY_SPLIT := Split(map[], map[])

  /** The value used for a property: the one supplied, else the default. */
  function Effective(p: Property, values: Values): Option<Value> {
    if p.name in values then Some(values[p.name]) else p.definition.default
  }

  /** The loop body of `validate_parameters`. */
  function Take(s: Split, p: Property, required: set<string>, values: Values): Option<Split> {
    var v := Effective(p, values);
    if v.None? then (if p.name in required then None else Some(s))
    else if !Accepts(p.definition, v.value) then None
    else if p.definition.sensitive then Some(s.(secret := s.secret[p.name := v.value.text]))
    else Some(s.(public := s.public[p.name := v.value]))
  }

  function TakeAll(properties: seq<Property>, required: set<string>, values: Values): Option<Split> {
    if properties == [] then Some(EMPTY_SPLIT)
    else
      var before := TakeAll(properties[..|properties| - 1], required, values);
      if before.None? then None else Take(before.value, properties[|properties| - 1], required, values)
  }

  /** `validate_parameters`; None where it raises. */
  function Validate(schema: Schema, values: Values): Option<Split> {
    if exists name :: name in values && !Named(schema.properties, name) then None
    else TakeAll(schema.properties, schema.required, values)
  }

  method ValidateParameters(schema: Schema, values: Values) returns (r: Option<Split>)
    ensures r == Validate(schema, values)
  {
    if exists name :: name in values && !Named(schema.properties, name) {
      return None;
    }
    hide TakeAll, Accepts, Named;
    var properties := schema.properties;
    var public: Values, secret: map<string, string> := map[], map[];
    TakeNothing(properties, schema.required, values);
    for i := 0 to |properties|
      invariant TakeAll(properties[..i], schema.required, values) == Some(Split(public, secret))
    {
      TakeStep(properties, schema.required, values, i);
      var name, definition := properties[i].name, properties[i].definition;
      if name !in values && definition.default.None? {
        if name in schema.required {
          TakeAllEarly(properties, schema.required, values, i + 1);
          return None;
        }
        continue;
      }
      var value := if name in values then values[name] else definition.default.value;
      if !Accepts(definition, value) {
        TakeAllEarly(properties, schema.required, values, i + 1);
        return None;
      }
      if definition.sensitive {
        SecretIsText(definition, value);
        secret := secret[name := value.text];
      } else {
        public := public[name := value];
      }
    }
    assert properties[..|properties|] == properties;
    return Some(Split(public, secret));
  }

  lemma TakeNothing(properties: seq<Property>, required: set<string>, values: Values)
    ensures TakeAll(properties[..0], required, values) == Some(EMPTY_SPLIT)
  {
  }

  lemma TakeStep(properties: seq<Property>, required: set<string>, values: Values, i: nat)
    requires i < |properties| && TakeAll(properties[..i], required, values).Some?
    ensures TakeAll(properties[..i + 1], required, values) ==
            Take(TakeAll(properties[..i], required, values).value, properties[i], required, values)
  {
    hide Take;
    assert properties[..i + 1][..i] == properties[..i] && properties[..i + 1][i] == properties[i];
  }

  lemma SecretIsText(d: Definition, v: Value)
    requires d.sensitive && Accepts(d, v)
    ensures v.Text?
  {
  }

  lemma {:induction false} TakeAllEarly(properties: seq<Property>, required: set<string>, values: Values, n: nat)
    requires n <= |properties| && TakeAll(properties[..n], required, values).None?
    ensures TakeAll(properties, required, values).None?
    decreases |properties|
  {
    if n == |properties| {
      assert properties[..n] == properties;
    } else {
      var init := properties[..|properties| - 1];
      assert properties[..n] == init[..n];
      TakeAllEarly(init, required, values, n);
    }
  }

  // ---------------------------------------------------------------- what the split contains

  predicate Satisfied(p: Property, required: set<string>, values: Values) {
    var v := Effective(p, values);
    if v.None? then p.name !in required else Accepts(p.definition, v.value)
  }

  /** The entry of one property in the two halves of the split. */
  predicate Placed(p: Property, values: Values, s: Split) {
    var v := Effective(p, values);
    if v.None? then p.name !in s.public && p.name !in s.secret
    else if p.definition.sensitive then
      p.name !in s.public && p.name in s.secret && v.value == Text(s.secret[p.name])
    else p.name !in s.secret && p.name in s.public && s.public[p.name] == v.value
  }

  /** Two splits have the same entries under a name. */
  predicate SameUnder(name: string, a: Split, b: Split) {
    && (name in a.public <==> name in b.public) && (name in a.secret <==> name in b.secret)
    && (name in a.public ==> name in b.public && a.public[name] == b.public[name])
    && (name in a.secret ==> name in b.secret && a.secret[name] == b.secret[name])
  }

  lemma TakePlaces(s: Split, p: Property, required: set<string>, values: Values)
    requires p.name !in s.public && p.name !in s.secret
    ensures var r := Take(s, p, required, values);
      && (r.Some? <==> Satisfied(p, required, values))
      && (r.Some? ==> Placed(p, values, r.value) && forall name | name != p.name :: SameUnder(name, s, r.value))
  {
  }

  lemma {:induction false} TakeAllPlaces(properties: seq<Property>, required: set<string>, values: Values)
    requires Distinct(properties)
    ensures TakeAll(properties, required, values).Some? <==>
      forall i | 0 <= i < |properties| :: Satisfied(properties[i], required, values)
    ensures var r := TakeAll(properties, required, values);
      r.Some? ==>
        && (forall i | 0 <= i < |properties| :: Placed(properties[i], values, r.value))
        && (forall name | name in r.value.public || name in r.value.secret :: Named(properties, name))
  {
    hide Take, Satisfied, Placed, Named;
    if properties != [] {
      var init, last := properties[..|properties| - 1], properties[|properties| - 1];
      assert forall i | 0 <= i < |init| :: init[i] == properties[i];
      TakeAllPlaces(init, required, values);
      var before := TakeAll(init, required, values);
      if before.Some? {
        LastIsNew(properties);
        TakePlaces(before.value, last, required, values);
        var r := TakeAll(properties, required, values);
        if r.Some? {
          forall i | 0 <= i < |init| ensures Placed(properties[i], values, r.value) {
            PlacedUnder(init[i], values, before.value, r.value);
          }
          forall name | name in r.value.public || name in r.value.secret ensures Named(properties, name) {
            NamedSnoc(properties, name);
            assert name != last.name ==> SameUnder(name, before.value, r.value);
          }
        }
      }
    }
  }

  lemma LastIsNew(properties: seq<Property>)
    requires properties != [] && Distinct(properties)
    ensures !Named(properties[..|properties| - 1], properties[|properties| - 1].name)
  {
  }

  lemma NamedSnoc(properties: seq<Property>, name: string)
    requires properties != []
    ensures Named(properties, name) <==>
      Named(properties[..|properties| - 1], name) || properties[|properties| - 1].name == name
  {
  }

  lemma PlacedUnder(p: Property, values: Values, a: Split, b: Split)
    requires Placed(p, values, a) && SameUnder(p.name, a, b)
    ensures Placed(p, values, b)
  {
  }

  lemma SplitDetermined(properties: seq<Property>, values: Values, a: Split, b: Split)
    requires forall i | 0 <= i < |properties| :: Placed(properties[i], values, a) && Placed(properties[i], values, b)
    requires forall name | name in a.public || name in a.secret || name in b.public || name in b.secret ::
      Named(properties, name)
    ensures a == b
  {
  }

  /** The choices, if any, have this value in them; 1 and 1.0 are the same choice. */
  predicate Chosen(d: Definition, v: Value) {
    d.choices.Some? ==>
      exists i :: 0 <= i < |d.choices.value| &&
        (d.choices.value[i] == v ||
         (v.Integer? && d.choices.value[i] == Float(v.n as real)) ||
         (v.Float? && d.choices.value[i].Integer? && d.choices.value[i].n as real == v.x))
  }

  /** What a definition accepts, by the value: text only as a string, whole numbers as integers and
      numbers, other numbers as numbers, truth values as booleans, and nothing else; secrets are
      text. */
  lemma AcceptsIff(d: Definition, v: Value)
    ensures Accepts(d, v) <==>
      match v
      case Text(t) =>
        && d.kind == StringType && Chosen(d, v)
        && (d.minLength.Some? ==> d.minLength.value <= |t|) && (d.maxLength.Some? ==> |t| <= d.maxLength.value)
      case Integer(n) =>
        && d.kind in {Type.IntegerType, Type.NumberType} && !d.sensitive && Chosen(d, v)
        && (d.minimum.Some? ==> d.minimum.value <= n as real) && (d.maximum.Some? ==> n as real <= d.maximum.value)
      case Float(x) =>
        && d.kind == NumberType && !d.sensitive && Chosen(d, v)
        && (d.minimum.Some? ==> d.minimum.value <= x) && (d.maximum.Some? ==> x <= d.maximum.value)
      case Boolean(_) => d.kind == BooleanType && !d.sensitive && Chosen(d, v)
      case NonFinite => false
      case Other => false
  {
    ChosenIff(d, v);
    hide Chosen;
  }

  lemma ChosenIff(d: Definition, v: Value)
    ensures Chosen(d, v) <==>
      (d.choices.Some? ==> exists i :: 0 <= i < |d.choices.value| && Equal(v, d.choices.value[i]))
  {
    if d.choices.Some? {
      var choices := d.choices.value;
      forall i | 0 <= i < |choices|
        ensures Equal(v, choices[i]) <==>
          (choices[i] == v || (v.Integer? && choices[i] == Float(v.n as real)) ||
           (v.Float? && choices[i].Integer? && choices[i].n as real == v.x))
      {
        SameNumber(v, choices[i]);
      }
    }
  }

  lemma SameNumber(v: Value, w: Value)
    ensures v.Integer? && w.Integer? ==> (v.n as real == w.n as real <==> v == w)
  {
  }

  /** The value `v` of a property ends up in the half its sensitivity calls for, and not in the
      other. */
  predicate Holds(s: Split, p: Property, v: Value) {
    if p.definition.sensitive then v.Text? && p.name in s.secret && s.secret[p.name] == v.text && p.name !in s.public
    else p.name in s.public && s.public[p.name] == v && p.name !in s.secret
  }

  /** Parameters are valid exactly when every supplied name is declared, every supplied value is
      accepted, every default that is needed is accepted, and no required name is left without
      either. Then a supplied value is kept as it is, default or no default; a property that was
      not supplied has its default if it has one and nothing otherwise; and there is nothing else. */
  lemma ValidateExact(schema: Schema, values: Values)
    requires schema.Valid()
    ensures Validate(schema, values).Some? <==>
      && (forall name | name in values :: exists i :: 0 <= i < |schema.properties| && schema.properties[i].name == name)
      && (forall i | 0 <= i < |schema.properties| ::
            var p := schema.properties[i];
            && (p.name in values ==> Accepts(p.definition, values[p.name]))
            && (p.name !in values && p.definition.default.Some? ==> Accepts(p.definition, p.definition.default.value))
            && (p.name !in values && p.definition.default.None? ==> p.name !in schema.required))
    ensures Validate(schema, values).Some? ==>
      var s := Validate(schema, values).value;
      && (forall i | 0 <= i < |schema.properties| ::
            var p := schema.properties[i];
            && (p.name in values ==> Holds(s, p, values[p.name]))
            && (p.name !in values && p.definition.default.Some? ==> Holds(s, p, p.definition.default.value))
            && (p.name !in values && p.definition.default.None? ==> p.name !in s.public && p.name !in s.secret))
      && (forall name | name in s.public || name in s.secret ::
            exists i :: 0 <= i < |schema.properties| && schema.properties[i].name == name)
  {
    hide Accepts, TakeAll;
    TakeAllPlaces(schema.properties, schema.required, values);
    if Validate(schema, values).Some? {
      forall i | 0 <= i < |schema.properties|
        ensures Placed(schema.properties[i], values, Validate(schema, values).value) &&
                Satisfied(schema.properties[i], schema.required, values)
      {
      }
      forall name | name in values
        ensures exists i :: 0 <= i < |schema.properties| && schema.properties[i].name == name
      {
        assert Named(schema.properties, name);
      }
    } else {
      assert (exists name :: name in values && !Named(schema.properties, name)) ||
             exists i :: 0 <= i < |schema.properties| && !Satisfied(schema.properties[i], schema.required, values);
    }
  }

  // ---------------------------------------------------------------- secrets stay out of the stored run

  predicate Sensitive(schema: Schema, name: string) {
    exists i :: 0 <= i < |schema.properties| && schema.properties[i].name == name &&
      schema.properties[i].definition.sensitive
  }

  /** The parameter fields of the stored operation: `extraVars`, `parameterNames` and
      `secretParameterNames`, the name lists as the sets they are sorted from. */
  datatype Stored = Stored(extraVars: Values, parameterNames: set<string>, secretParameterNames: set<string>)

  function Store(values: Values, s: Split): Stored {
    Stored(s.public, values.Keys, s.secret.Keys)
  }

  /** Two valid inputs that differ only in sensitive values store the same fields. */
  lemma StoredIgnoresSecrets(schema: Schema, a: Values, b: Values)
    requires schema.Valid() && Validate(schema, a).Some? && Validate(schema, b).Some?
    requires a.Keys == b.Keys && forall name | name in a && !Sensitive(schema, name) :: a[name] == b[name]
    ensures Store(a, Validate(schema, a).value) == Store(b, Validate(schema, b).value)
  {
    hide TakeAll, Satisfied, Placed, Sensitive;
    var ps, s, t := schema.properties, Validate(schema, a).value, Validate(schema, b).value;
    TakeAllPlaces(ps, schema.required, a);
    TakeAllPlaces(ps, schema.required, b);
    forall name ensures SameEntry(name, s, t) {
      if Named(ps, name) {
        var i :| 0 <= i < |ps| && ps[i].name == name;
        SameStored(schema, i, a, b, s, t);
      }
    }
    SameEntries(s, t);
  }

  lemma SameEntries(s: Split, t: Split)
    requires forall name :: SameEntry(name, s, t)
    ensures s.public == t.public && s.secret.Keys == t.secret.Keys
  {
    forall name ensures (name in s.public <==> name in t.public) && (name in s.secret <==> name in t.secret) &&
                        (name in s.public && name in t.public ==> s.public[name] == t.public[name]) {
      assert SameEntry(name, s, t);
    }
    assert s.public == t.public && s.secret.Keys == t.secret.Keys;
  }

  /** The two splits agree on a name, up to the value of a secret. */
  predicate SameEntry(name: string, s: Split, t: Split) {
    && (name in s.public <==> name in t.public) && (name in s.secret <==> name in t.secret)
    && (name in s.public && name in t.public ==> s.public[name] == t.public[name])
  }

  lemma SameStored(schema: Schema, i: nat, a: Values, b: Values, s: Split, t: Split)
    requires schema.Valid() && i < |schema.properties|
    requires a.Keys == b.Keys && forall name | name in a && !Sensitive(schema, name) :: a[name] == b[name]
    requires Placed(schema.properties[i], a, s) && Placed(schema.properties[i], b, t)
    ensures SameEntry(schema.properties[i].name, s, t)
  {
  }

  // ---------------------------------------------------------------- retrying

  /** The values a retry supplies: the stored public ones and the same secrets again. */
  function Rejoined(s: Split): Values {
    s.public + map name | name in s.secret :: Text(s.secret[name])
  }

  lemma RejoinedEffective(p: Property, values: Values, s: Split)
    requires Placed(p, values, s) && (p.definition.default.Some? ==> Effective(p, values).Some?)
    ensures Effective(p, Rejoined(s)) == Effective(p, values)
  {
  }

  /** Validating the two halves of a split gives the same split, so a retry with the same
      secrets runs with the variables of its source. */
  lemma RetryReproduces(schema: Schema, values: Values)
    requires schema.Valid() && Validate(schema, values).Some?
    ensures Validate(schema, Rejoined(Validate(schema, values).value)) == Validate(schema, values)
  {
    hide TakeAll, Accepts;
    var ps, s := schema.properties, Validate(schema, values).value;
    var again := Rejoined(s);
    TakeAllPlaces(ps, schema.required, values);
    TakeAllPlaces(ps, schema.required, again);
    forall i | 0 <= i < |ps| ensures Effective(ps[i], again) == Effective(ps[i], values) {
      RejoinedEffective(ps[i], values, s);
    }
    hide Effective;
    forall name | name in again ensures Named(schema.properties, name) {
      assert Named(ps, name);
    }
    forall i | 0 <= i < |ps| ensures Satisfied(ps[i], schema.required, again) {
      assert Satisfied(ps[i], schema.required, values);
    }
    var t := Validate(schema, again).value;
    forall i | 0 <= i < |ps| ensures Placed(ps[i], values, t) {
      assert Placed(ps[i], again, t);
    }
    SplitDetermined(ps, values, s, t);
  }

  /** The stored fields are enough for that: the names tell which parameters were supplied and which
      secrets are needed again, and the stored public values with those secrets give the split of
      the source. */
  lemma RetryFromStored(schema: Schema, values: Values)
    requires schema.Valid() && Validate(schema, values).Some?
    ensures var s := Validate(schema, values).value;
      var stored := Store(values, s);
      && (forall name :: name in stored.parameterNames <==> name in values)
      && (forall name :: name in stored.secretParameterNames <==> name in s.secret)
      && Validate(schema, stored.extraVars + map name | name in s.secret :: Text(s.secret[name])) == Some(s)
  {
    RetryReproduces(schema, values);
    hide Validate;
  }
}
