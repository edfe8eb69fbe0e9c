// The typed index of custom field values (apps/custom_fields/services.py, models.py and
// validators.py).
module CustomFields {
  import opened Options
  import opened Text

  type FieldId = nat
  type TenantId = nat
  type ObjectRef = (nat, nat)             // content type, object id

  datatype FieldType = TextField | TextArea | Number | Date | Select | MultiSelect | Checkbox | File
  datatype Module = TicketModule | ContactModule | CompanyModule

  // A value of custom_data.
  datatype Json =
    | JNull | JBool(b: bool) | JNumber(n: real) | JString(s: string) | JList(items: seq<Json>) | JDate(at: int)

  datatype Rules = Rules(
    minLength: Option<nat>, maxLength: Option<nat>, regex: string, min: Option<real>, max: Option<real>)

  datatype Definition = Definition(
    slug: string, tenant: TenantId, mod: Module, fieldType: FieldType, active: bool, required: bool,
    rules: Rules, options: seq<Json>)

  // A Decimal, and what a date parser makes of a string: no match, or a match that names no date,
  // for which it raises ValueError.
  datatype Dec = Finite(x: real) | Infinite(negative: bool) | NotANumber
  datatype Parsed = At(at: int) | NoMatch | Impossible

  // Library conversions.
  datatype Library = Library(
    show: Json -> string,                         // str
    dumps: Json -> string,                        // json.dumps
    decimal: string -> Option<Dec>,               // Decimal(...), None when it raises
    datetime: string -> Parsed,                   // parse_datetime
    date: string -> Parsed,                       // parse_date
    regexHits: (string, string) -> bool,          // re.match, false when it raises
    millionths: real -> int)                      // what the database rounds a number to, in 0.000001

  // What is used of them: a string prints as itself, neither a blank text nor an empty list is a
  // decimal number, a blank text is no date, and the database rounds to a nearest neighbour, ties either way.
  ghost predicate Lawful(lib: Library) {
    && (forall s :: lib.show(JString(s)) == s)
    && (forall s :: Strip(s) == "" ==> lib.decimal(s) == None && lib.datetime(s) == NoMatch)
    && lib.decimal(lib.show(JList([]))) == None
    && (forall x :: NearestMillionths(x, lib.millionths(x)))
  }

  predicate NearestMillionths(x: real, n: int) {
    -0.5 <= n as real - x * 1000000.0 <= 0.5
  }

  // ---------------------------------------------------------------- typed columns

  // The keyword arguments built for a row hold a Decimal, the stored row a numeric(20,6).
  datatype Columns<N> = Columns(text: Option<string>, number: Option<N>, date: Option<int>, flag: Option<bool>)

  function NoValue<N>(): Columns<N> {
    Columns(None, None, None, None)
  }

  predicate Truthy(v: Json) {
    match v
    case JNull => false
    case JBool(b) => b
    case JNumber(n) => n != 0.0
    case JString(s) => s != ""
    case JList(items) => items != []
    case JDate(_) => true
  }

  // _build_value_kwargs; None when it raises.
  function BuildColumns(lib: Library, t: FieldType, v: Json): Option<Columns<Dec>> {
    var none := NoValue<Dec>();
    if v.JNull? then Some(none)
    else match t
      case TextField => Some(none.(text := Some(lib.show(v))))
      case TextArea => Some(none.(text := Some(lib.show(v))))
      case File => Some(none.(text := Some(lib.show(v))))
      case Select => Some(none.(text := Some(lib.show(v))))
      case MultiSelect => Some(none.(text := Some(if v.JList? then lib.dumps(v) else lib.show(v))))
      case Number =>
        var d := lib.decimal(lib.show(v));
        if d.Some? then Some(none.(number := d)) else Some(none.(text := Some(lib.show(v))))
      case Date =>
        if v.JDate? then Some(none.(date := Some(v.at)))
        else if v.JString? then
          match lib.datetime(v.s)
          case At(at) => Some(none.(date := Some(at)))
          case NoMatch => Some(none.(text := Some(v.s)))
          case Impossible => None
        else Some(none.(text := Some(lib.show(v))))
      case Checkbox => Some(none.(flag := Some(if v.JBool? then v.b else Truthy(v))))
  }

  const NUMBER_LIMIT := 100000000000000000000     // 10^20 millionths: twenty digits, six of them decimals

  // A number the column can hold.
  predicate Fits(lib: Library, d: Dec) {
    d.Finite? && -NUMBER_LIMIT < lib.millionths(d.x) < NUMBER_LIMIT
  }

  function Rounded(lib: Library, x: real): real {
    lib.millionths(x) as real / 1000000.0
  }

  // Writing the row; None when the database or the field refuses the number.
  function Store(lib: Library, c: Columns<Dec>): Option<Columns<real>> {
    match c.number
    case None => Some(Columns(c.text, None, c.date, c.flag))
    case Some(d) => if Fits(lib, d) then Some(Columns(c.text, Some(Rounded(lib, d.x)), c.date, c.flag)) else None
  }

  // What ends up in the row for a value; None when building or writing it raises.
  function Encoded(lib: Library, t: FieldType, v: Json): Option<Columns<real>> {
    match BuildColumns(lib, t, v)
    case None => None
    case Some(c) => Store(lib, c)
  }

  // The values that can be indexed.
  predicate Storable(lib: Library, t: FieldType, v: Json) {
    && (t == Number && !v.JNull? && lib.decimal(lib.show(v)).Some? ==> Fits(lib, lib.decimal(lib.show(v)).value))
    && (t == Date && v.JString? ==> !lib.datetime(v.s).Impossible?)
  }

  /** Indexing a value raises exactly for a number that parses but does not fit the column (too large,
      infinite or not a number) and for a date string that matches the format but names no date. */
  lemma EncodesExactlyTheStorable(lib: Library, t: FieldType, v: Json)
    ensures Encoded(lib, t, v).Some? <==> Storable(lib, t, v)
  {}

  predicate SixDecimals(x: real) {
    (x * 1000000.0).Floor as real == x * 1000000.0
  }

  /** A number of at most six decimals fits exactly when it is less than 10^14 in absolute value; others
      up to the rounding. */
  lemma FitsExactlyWhen(lib: Library, x: real)
    requires Lawful(lib)
    ensures SixDecimals(x) ==> (Fits(lib, Finite(x)) <==> -100000000000000.0 < x < 100000000000000.0)
    ensures -99999999999999.0 <= x <= 99999999999999.0 ==> Fits(lib, Finite(x))
    ensures x <= -100000000000000.0 || 100000000000000.0 <= x ==> !Fits(lib, Finite(x))
    ensures !Fits(lib, NotANumber) && !Fits(lib, Infinite(true)) && !Fits(lib, Infinite(false))
  {
    assert NearestMillionths(x, lib.millionths(x));
    NearestIsExactWhen(x * 1000000.0, lib.millionths(x));
  }

  lemma NearestIsExactWhen(y: real, n: int)
    requires -0.5 <= n as real - y <= 0.5
    ensures n as real == y <==> y.Floor as real == y
  {
    if y.Floor as real == y {
      assert -0.5 <= (n - y.Floor) as real <= 0.5;
    }
  }

  lemma RoundedIsExactWhen(lib: Library, x: real)
    requires Lawful(lib)
    ensures Rounded(lib, x) == x <==> SixDecimals(x)
  {
    assert NearestMillionths(x, lib.millionths(x));
    NearestIsExactWhen(x * 1000000.0, lib.millionths(x));
  }

  datatype Shown = Nothing | Flag(b: bool) | Quantity(n: real) | Instant(at: int) | Words(s: string)

  // CustomFieldValue.display_value
  function DisplayValue(c: Columns<real>): Shown {
    if c.flag.Some? then Flag(c.flag.value)
    else if c.number.Some? then Quantity(c.number.value)
    else if c.date.Some? then Instant(c.date.value)
    else if c.text.Some? then Words(c.text.value)
    else Nothing
  }

  function Filled(c: Columns<real>): nat {
    (if c.text.Some? then 1 else 0) + (if c.number.Some? then 1 else 0)
    + (if c.date.Some? then 1 else 0) + (if c.flag.Some? then 1 else 0)
  }

  /** A written row has exactly one typed column filled, or none for a null value, and display_value
      shows that column: a checkbox its truth value, a number its decimal rounded to six places, a
      date its instant, and everything else, with unparsable numbers and dates, its text. */
  lemma OneColumnAndItIsShown(lib: Library, t: FieldType, v: Json)
    requires Encoded(lib, t, v).Some?
    ensures Filled(Encoded(lib, t, v).value) == if v.JNull? then 0 else 1
    ensures var shown := DisplayValue(Encoded(lib, t, v).value);
      && (shown == Nothing <==> v.JNull?)
      && (shown.Flag? <==> !v.JNull? && t == Checkbox)
      && (shown.Flag? ==> shown.b == Truthy(v))
      && (shown.Quantity? <==> !v.JNull? && t == Number && lib.decimal(lib.show(v)).Some?)
      && (shown.Quantity? ==> var d := lib.decimal(lib.show(v)).value; d.Finite? && shown.n == Rounded(lib, d.x))
      && (shown.Instant? ==> t == Date && (v == JDate(shown.at) || (v.JString? && lib.datetime(v.s) == At(shown.at))))
      && (shown.Words? ==> shown.s == if t == MultiSelect && v.JList? then lib.dumps(v)
                                      else if t == Date && v.JString? then v.s else lib.show(v))
  {}

  /** display_value equals the number that was encoded if and only if that has at most six decimals. */
  lemma NumberShownExactlyWhen(lib: Library, v: Json, x: real)
    requires Lawful(lib) && !v.JNull? && lib.decimal(lib.show(v)) == Some(Finite(x)) && Fits(lib, Finite(x))
    ensures Encoded(lib, Number, v).Some?
    ensures DisplayValue(Encoded(lib, Number, v).value) == Quantity(x) <==> SixDecimals(x)
  {
    RoundedIsExactWhen(lib, x);
  }

  // ---------------------------------------------------------------- validation

  predicate IsEmpty(v: Json) {
    v.JNull? || (v.JString? && Strip(v.s) == "") || (v.JList? && v.items == [])
  }

  // What a validator does: it returns, raises ValidationError, or raises something else.
  datatype Verdict = Accepts | Rejects | Escapes

  function Decide(accepted: bool): Verdict {
    if accepted then Accepts else Rejects
  }

  // A comparison with NaN raises InvalidOperation.
  function NumberVerdict(r: Rules, d: Option<Dec>): Verdict {
    match d
    case None => Rejects
    case Some(NotANumber) => if r.min.Some? || r.max.Some? then Escapes else Accepts
    case Some(Infinite(negative)) => Decide(if negative then r.min.None? else r.max.None?)
    case Some(Finite(x)) => Decide((r.min.Some? ==> x >= r.min.value) && (r.max.Some? ==> x <= r.max.value))
  }

  // parse_datetime(value) or parse_date(value)
  function DateVerdict(lib: Library, v: Json): Verdict {
    if v.JDate? then Accepts
    else if !v.JString? then Rejects
    else match lib.datetime(v.s)
      case Impossible => Escapes
      case At(_) => Accepts
      case NoMatch =>
        match lib.date(v.s)
        case Impossible => Escapes
        case At(_) => Accepts
        case NoMatch => Rejects
  }

  // The type validators of CustomFieldValidator, on a non-empty value.
  function TypeVerdict(lib: Library, d: Definition, v: Json): Verdict {
    match d.fieldType
    case TextField => Decide(TextAccepts(lib, d.rules, v))
    case TextArea => Decide(TextAccepts(lib, d.rules, v))
    case Number => NumberVerdict(d.rules, lib.decimal(lib.show(v)))
    case Date => DateVerdict(lib, v)
    case Select => Decide(v in d.options)
    case MultiSelect => Decide(v.JList? && forall i :: 0 <= i < |v.items| ==> v.items[i] in d.options)
    case Checkbox => Decide(v.JBool?)
    case File => Decide(v.JString?)
  }

  predicate TextAccepts(lib: Library, r: Rules, v: Json) {
    && v.JString?
    && (r.minLength.Some? ==> |v.s| >= r.minLength.value)
    && (r.maxLength.Some? ==> |v.s| <= r.maxLength.value)
    && (r.regex != "" ==> lib.regexHits(r.regex, v.s))
  }

  // CustomFieldValidator.validate
  function Validated(lib: Library, d: Definition, v: Json): Verdict {
    if IsEmpty(v) then Decide(!d.required) else TypeVerdict(lib, d, v)
  }

  /** What is false: null, false, zero, the empty text, the empty list. */
  lemma TruthyExactlyWhen(v: Json)
    ensures Truthy(v) <==> v !in {JNull, JBool(false), JNumber(0.0), JString(""), JList([])}
  {}

  /** A value counts as empty when it is null, an empty list, or a text of white space only. */
  lemma EmptyExactlyWhen(v: Json)
    ensures IsEmpty(v) <==>
      v == JNull || v == JList([]) || exists s :: v == JString(s) && forall i :: 0 <= i < |s| ==> IsSpace(s[i])
  {
    if v.JString? {
      var head, tail := TrimParts(v.s, IsSpace);
      assert v == JString(v.s);
      if Strip(v.s) == "" {
        assert v.s == head + tail;
      }
      if AllDropped(v.s, IsSpace) {
        TrimPadded(v.s, "", "", IsSpace);
        assert v.s + "" + "" == v.s;
      }
    }
  }

  /** What a field accepts: an empty value unless it is required; otherwise a text within its length
      limits that matches its pattern, a number within its bounds, a date or a text that parses as
      one, an option, a list of options, a truth value, a file reference. */
  lemma AcceptsExactlyWhen(lib: Library, d: Definition, v: Json)
    ensures IsEmpty(v) ==> (Validated(lib, d, v) == Accepts <==> !d.required)
    ensures IsEmpty(v) ==> Validated(lib, d, v) != Escapes
    ensures !IsEmpty(v) && d.fieldType in {TextField, TextArea} ==>
      (Validated(lib, d, v) == Accepts <==>
         exists s :: v == JString(s)
                     && (forall n :: d.rules.minLength == Some(n) ==> n <= |s|)
                     && (forall n :: d.rules.maxLength == Some(n) ==> |s| <= n)
                     && (d.rules.regex == "" || lib.regexHits(d.rules.regex, s)))
    ensures !IsEmpty(v) && d.fieldType == Number ==>
      (Validated(lib, d, v) == Accepts <==>
         exists n :: lib.decimal(lib.show(v)) == Some(n) && WithinBounds(n, d.rules.min, d.rules.max))
    ensures !IsEmpty(v) && d.fieldType == Date ==>
      (Validated(lib, d, v) == Accepts <==>
         || (exists at :: v == JDate(at))
         || (exists s, at :: v == JString(s) && lib.datetime(s) == At(at))
         || (exists s, at :: v == JString(s) && lib.datetime(s) == NoMatch && lib.date(s) == At(at)))
    ensures !IsEmpty(v) && d.fieldType == Select ==> (Validated(lib, d, v) == Accepts <==> v in d.options)
    ensures !IsEmpty(v) && d.fieldType == MultiSelect ==>
      (Validated(lib, d, v) == Accepts <==> exists q :: v == JList(q) && forall x :: x in q ==> x in d.options)
    ensures !IsEmpty(v) && d.fieldType == Checkbox ==> (Validated(lib, d, v) == Accepts <==> v in {JBool(true), JBool(false)})
    ensures !IsEmpty(v) && d.fieldType == File ==> (Validated(lib, d, v) == Accepts <==> exists s :: v == JString(s))
  {
    match v
    case JString(s) =>
      assert v == JString(s);
      assert lib.datetime(s).At? ==> lib.datetime(s) == At(lib.datetime(s).at);
      assert lib.date(s).At? ==> lib.date(s) == At(lib.date(s).at);
    case JList(q) => assert v == JList(q);
    case JDate(at) => assert v == JDate(at);
    case _ =>
    var n := lib.decimal(lib.show(v));
    assert n.Some? ==> n == Some(n.value);
  }

  // A number between its bounds, infinities being beyond every bound on their side; not-a-number only
  // where there is no bound to compare it with.
  predicate WithinBounds(n: Dec, lo: Option<real>, hi: Option<real>) {
    && (lo == None || (n.Finite? && lo.value <= n.x) || n == Infinite(false))
    && (hi == None || (n.Finite? && n.x <= hi.value) || n == Infinite(true))
  }

  /** The validator and the indexer agree on types: a validated value of a number field is stored as
      text exactly when it is empty without being null, and a validated non-empty number or checkbox
      is written to its own column or not at all. */
  lemma ValidatedValuesAreTyped(lib: Library, d: Definition, v: Json)
    requires Lawful(lib) && Validated(lib, d, v) == Accepts
    ensures d.fieldType == Number ==>
              && BuildColumns(lib, Number, v).Some?
              && (BuildColumns(lib, Number, v).value.text.Some? <==> IsEmpty(v) && !v.JNull?)
    ensures d.fieldType == Number && !IsEmpty(v) ==>
              BuildColumns(lib, Number, v).value.number == lib.decimal(lib.show(v)) != None
    ensures d.fieldType == Checkbox && !IsEmpty(v) ==>
              Encoded(lib, Checkbox, v) == Some(NoValue<real>().(flag := Some(v.b)))
    ensures d.fieldType == Checkbox ==> Encoded(lib, Checkbox, v).Some? && Encoded(lib, Checkbox, v).value.text.None?
  {
    if d.fieldType == Number && v.JString? && Strip(v.s) == "" {
      assert lib.decimal(lib.show(v)) == None;
    }
  }

  /** They disagree on range: an accepted value makes the indexer raise if and only if it is a number
      that does not fit the column. An impossible date never gets that far, for the validator itself
      raises on it. */
  lemma AcceptedButNotStorableWhen(lib: Library, d: Definition, v: Json)
    requires Lawful(lib) && Validated(lib, d, v) == Accepts
    ensures Encoded(lib, d.fieldType, v).None? <==>
      d.fieldType == Number && !v.JNull? && lib.decimal(lib.show(v)).Some? && !Fits(lib, lib.decimal(lib.show(v)).value)
  {
    if d.fieldType == Date && v.JString? && Strip(v.s) == "" {
      assert lib.datetime(v.s) == NoMatch;
    }
  }

  /** The validator lets an exception other than ValidationError escape if and only if the value is an
      impossible date string of a date field, or not-a-number in a number field with a bound. */
  lemma EscapesExactlyWhen(lib: Library, d: Definition, v: Json)
    ensures Validated(lib, d, v) == Escapes <==>
      && !IsEmpty(v)
      && (|| (d.fieldType == Number && lib.decimal(lib.show(v)) == Some(NotANumber)
              && (d.rules.min.Some? || d.rules.max.Some?))
          || (d.fieldType == Date && v.JString?
              && (lib.datetime(v.s).Impossible? || (lib.datetime(v.s).NoMatch? && lib.date(v.s).Impossible?))))
  {}

  /** Two inputs that an unbounded number field accepts and the indexer cannot write. */
  lemma OversizedAndNaNAreAccepted(lib: Library, d: Definition, v: Json)
    requires Lawful(lib) && d.fieldType == Number && d.rules.min.None? && d.rules.max.None? && !IsEmpty(v)
    requires lib.decimal(lib.show(v)) in {Some(Finite(1000000000000000.0)), Some(NotANumber)}
    ensures Validated(lib, d, v) == Accepts && Encoded(lib, Number, v).None?
  {
    assert NearestMillionths(1000000000000000.0, lib.millionths(1000000000000000.0));
  }

  // ---------------------------------------------------------------- synchronisation

  datatype Instance = Instance(tenant: TenantId, obj: ObjectRef, data: Option<map<string, Json>>)

  datatype ValueRow = ValueRow(tenant: TenantId, columns: Columns<real>)
  type Rows = map<(FieldId, ObjectRef), ValueRow>
  type Definitions = map<FieldId, Definition>

  predicate SameKey(a: Definition, b: Definition) {
    a.tenant == b.tenant && a.mod == b.mod && a.slug == b.slug
  }

  // unique_together (tenant, module, slug)
  ghost predicate SlugsUnique(defs: Definitions) {
    forall f, g :: f in defs && g in defs && SameKey(defs[f], defs[g]) ==> f == g
  }

  predicate Belongs(defs: Definitions, f: FieldId, t: TenantId, m: Module) {
    f in defs && defs[f].tenant == t && defs[f].mod == m
  }

  // A field that the object's map has a value for.
  predicate Indexed(defs: Definitions, f: FieldId, t: TenantId, m: Module, data: map<string, Json>) {
    Belongs(defs, f, t, m) && defs[f].active && defs[f].slug in data
  }

  // The value of a field in the object's map.
  function ValueOf(defs: Definitions, i: Instance, f: FieldId): Json {
    if i.data.Some? && f in defs && defs[f].slug in i.data.value then i.data.value[defs[f].slug] else JNull
  }

  function TypeOf(defs: Definitions, f: FieldId): FieldType {
    if f in defs then defs[f].fieldType else TextField
  }

  // The row it is stored as, when it can be stored.
  function RowFor(lib: Library, defs: Definitions, i: Instance, f: FieldId): ValueRow {
    ValueRow(i.tenant, Encoded(lib, TypeOf(defs, f), ValueOf(defs, i, f)).GetOr(NoValue<real>()))
  }

  predicate CanStore(lib: Library, defs: Definitions, i: Instance, f: FieldId) {
    Storable(lib, TypeOf(defs, f), ValueOf(defs, i, f))
  }

  // Every indexed value of the object can be stored.
  ghost predicate AllStorable(lib: Library, defs: Definitions, i: Instance, m: Module) {
    i.data.Some? ==> forall f: FieldId :: Indexed(defs, f, i.tenant, m, i.data.value) ==> CanStore(lib, defs, i, f)
  }

  // What a sync that raised leaves behind: some of the storable fields written, nothing deleted, and
  // the rows of fields that cannot be stored as before.
  ghost predicate Abandoned(lib: Library, defs: Definitions, i: Instance, m: Module, before: Rows, after: Rows) {
    && before.Keys <= after.Keys
    && forall k :: k in after ==>
         || (k in before && after[k] == before[k])
         || (k.1 == i.obj && i.data.Some? && Indexed(defs, k.0, i.tenant, m, i.data.value)
             && CanStore(lib, defs, i, k.0) && after[k] == RowFor(lib, defs, i, k.0))
  }

  // The agreement after a sync, key by key: the object's rows for the module are exactly those of
  // its indexed fields, with the built columns, and every other row is as before.
  ghost predicate Agrees(
    lib: Library, defs: Definitions, i: Instance, m: Module, before: Rows, after: Rows, f: FieldId, o: ObjectRef)
    requires i.data.Some?
  {
    if o == i.obj && Belongs(defs, f, i.tenant, m) then
      if Indexed(defs, f, i.tenant, m, i.data.value) then
        (f, o) in after && after[(f, o)] == RowFor(lib, defs, i, f)
      else (f, o) !in after
    else
      ((f, o) in after <==> (f, o) in before) && ((f, o) in after ==> after[(f, o)] == before[(f, o)])
  }

  ghost predicate Synced(lib: Library, defs: Definitions, i: Instance, m: Module, before: Rows, after: Rows) {
    if i.data.None? then after == before
    else forall f: FieldId, o: ObjectRef :: Agrees(lib, defs, i, m, before, after, f, o)
  }

  lemma SameRows(a: Rows, b: Rows)
    requires forall f: FieldId, o: ObjectRef :: ((f, o) in a <==> (f, o) in b) && ((f, o) in a ==> a[(f, o)] == b[(f, o)])
    ensures a == b
  {
    forall k | k in a ensures k in b && a[k] == b[k] {
      assert (k.0, k.1) in a;
    }
    forall k | k in b ensures k in a {
      assert (k.0, k.1) in b;
    }
  }

  /** Synchronising is deterministic, and a second synchronisation changes nothing. */
  lemma SyncIsIdempotent(lib: Library, defs: Definitions, i: Instance, m: Module, r0: Rows, r1: Rows, r2: Rows)
    requires Synced(lib, defs, i, m, r0, r1)
    ensures Synced(lib, defs, i, m, r1, r2) ==> r2 == r1
    ensures Synced(lib, defs, i, m, r0, r2) ==> r2 == r1
  {
    if i.data.Some? && (Synced(lib, defs, i, m, r1, r2) || Synced(lib, defs, i, m, r0, r2)) {
      forall f: FieldId, o: ObjectRef ensures ((f, o) in r1 <==> (f, o) in r2) && ((f, o) in r1 ==> r1[(f, o)] == r2[(f, o)]) {
        assert Agrees(lib, defs, i, m, r0, r1, f, o);
        assert Agrees(lib, defs, i, m, r1, r2, f, o) || Agrees(lib, defs, i, m, r0, r2, f, o);
      }
      SameRows(r1, r2);
    }
  }

  /** After a sync the object's rows of the module and the keys of custom_data that have an active
      definition correspond one to one, by slug. */
  lemma RowsMatchKeysOneToOne(lib: Library, defs: Definitions, i: Instance, m: Module, before: Rows, after: Rows, slug: string)
    requires SlugsUnique(defs) && i.data.Some? && Synced(lib, defs, i, m, before, after)
    ensures (slug in i.data.value && exists f: FieldId :: Belongs(defs, f, i.tenant, m) && defs[f].active && defs[f].slug == slug)
       <==> exists f: FieldId :: Belongs(defs, f, i.tenant, m) && defs[f].slug == slug && (f, i.obj) in after
    ensures forall f: FieldId, g: FieldId :: Belongs(defs, f, i.tenant, m) && Belongs(defs, g, i.tenant, m)
              ==> (f, i.obj) !in after || (g, i.obj) !in after || defs[f].slug != defs[g].slug || f == g
  {
    forall f: FieldId ensures Belongs(defs, f, i.tenant, m) ==>
      ((f, i.obj) in after <==> Indexed(defs, f, i.tenant, m, i.data.value))
    {
      assert Agrees(lib, defs, i, m, before, after, f, i.obj);
    }
    if slug in i.data.value && exists f: FieldId :: Belongs(defs, f, i.tenant, m) && defs[f].active && defs[f].slug == slug {
      var f: FieldId :| Belongs(defs, f, i.tenant, m) && defs[f].active && defs[f].slug == slug;
      assert Belongs(defs, f, i.tenant, m) && defs[f].slug == slug && (f, i.obj) in after;
    }
  }

  class Index {
    const lib: Library
    const defs: Definitions
    var rows: Rows

    constructor (lib: Library, defs: Definitions)
      ensures this.lib == lib && this.defs == defs && rows == map[]
    {
      this.lib, this.defs := lib, defs;
      rows := map[];
    }

    // {fd.slug: fd for fd in active definitions of the tenant and module}
    method BySlug(t: TenantId, m: Module) returns (bySlug: map<string, FieldId>)
      requires SlugsUnique(defs)
      ensures forall s :: s in bySlug ==> Belongs(defs, bySlug[s], t, m) && defs[bySlug[s]].active && defs[bySlug[s]].slug == s
      ensures forall f: FieldId :: Belongs(defs, f, t, m) && defs[f].active ==> defs[f].slug in bySlug && bySlug[defs[f].slug] == f
    {
      var pending := defs.Keys;
      bySlug := map[];
      while pending != {}
        invariant pending <= defs.Keys
        invariant forall s :: s in bySlug ==>
          Belongs(defs, bySlug[s], t, m) && defs[bySlug[s]].active && defs[bySlug[s]].slug == s
        invariant forall f: FieldId :: f in defs && f !in pending && Belongs(defs, f, t, m) && defs[f].active ==>
          defs[f].slug in bySlug && bySlug[defs[f].slug] == f
      {
        var f :| f in pending;
        if Belongs(defs, f, t, m) && defs[f].active {
          bySlug := bySlug[defs[f].slug := f];
        }
        pending := pending - {f};
      }
    }

    // The upsert loop over the items of custom_data; `processed` are the fields it wrote. There is
    // no transaction around it: what was written before an exception stays.
    method Upsert(i: Instance, m: Module, bySlug: map<string, FieldId>) returns (processed: set<FieldId>, raised: bool)
      requires SlugsUnique(defs) && i.data.Some?
      requires forall s :: s in bySlug ==> Belongs(defs, bySlug[s], i.tenant, m) && defs[bySlug[s]].active && defs[bySlug[s]].slug == s
      requires forall f: FieldId :: Belongs(defs, f, i.tenant, m) && defs[f].active ==> defs[f].slug in bySlug && bySlug[defs[f].slug] == f
      modifies this
      ensures forall f: FieldId :: f in processed ==> Indexed(defs, f, i.tenant, m, i.data.value) && CanStore(lib, defs, i, f)
      ensures !raised ==> forall f: FieldId :: Indexed(defs, f, i.tenant, m, i.data.value) ==> f in processed
      ensures raised <==> !AllStorable(lib, defs, i, m)
      ensures rows.Keys == old(rows).Keys + set f | f in processed :: (f, i.obj)
      ensures forall k :: k in rows ==>
        if k.1 == i.obj && k.0 in processed then rows[k] == RowFor(lib, defs, i, k.0)
        else k in old(rows) && rows[k] == old(rows)[k]
    {
      var data := i.data.value;
      var pending := data.Keys;
      processed, raised := {}, false;
      while pending != {}
        invariant pending <= data.Keys && !raised
        invariant forall f: FieldId :: f in processed <==> Indexed(defs, f, i.tenant, m, data) && defs[f].slug !in pending
        invariant forall f: FieldId :: f in processed ==> CanStore(lib, defs, i, f)
        invariant rows.Keys == old(rows).Keys + set f | f in processed :: (f, i.obj)
        invariant forall k :: k in rows ==>
          if k.1 == i.obj && k.0 in processed then rows[k] == RowFor(lib, defs, i, k.0)
          else k in old(rows) && rows[k] == old(rows)[k]
      {
        var slug :| slug in pending;
        pending := pending - {slug};
        if slug in bySlug {
          var f := bySlug[slug];
          var columns := Encoded(lib, defs[f].fieldType, data[slug]);
          EncodesExactlyTheStorable(lib, defs[f].fieldType, data[slug]);
          if columns.None? {
            assert !CanStore(lib, defs, i, f);
            return processed, true;
          }
          processed := processed + {f};
          rows := rows[(f, i.obj) := ValueRow(i.tenant, columns.value)];
        }
      }
    }

    /** sync_custom_field_values: upsert the rows of the map's active fields, then delete the
        object's other rows of this tenant and module. It raises exactly when some indexed value
        cannot be stored, and then leaves the rows half written. */
    method Sync(i: Instance, m: Module) returns (raised: bool)
      requires SlugsUnique(defs)
      modifies this
      ensures raised <==> !AllStorable(lib, defs, i, m)
      ensures !raised ==> Synced(lib, defs, i, m, old(rows), rows)
      ensures !raised && i.data.Some? ==> forall f: FieldId :: Indexed(defs, f, i.tenant, m, i.data.value) ==>
        && (f, i.obj) in rows && rows[(f, i.obj)].tenant == i.tenant
        && Encoded(lib, defs[f].fieldType, i.data.value[defs[f].slug]) == Some(rows[(f, i.obj)].columns)
      ensures raised ==> Abandoned(lib, defs, i, m, old(rows), rows)
    {
      if i.data.None? {
        return false;
      }
      var bySlug := BySlug(i.tenant, m);
      var processed;
      processed, raised := Upsert(i, m, bySlug);
      if raised {
        return;
      }
      ghost var full := rows;
      rows := map k | k in rows && !(k.1 == i.obj && Belongs(defs, k.0, i.tenant, m) && k.0 !in processed) :: rows[k];
      forall f: FieldId, o: ObjectRef ensures Agrees(lib, defs, i, m, old(rows), rows, f, o) {
        var k := (f, o);
        assert k in full <==> k in old(rows) || (o == i.obj && f in processed);
      }
      forall f: FieldId | Indexed(defs, f, i.tenant, m, i.data.value)
        ensures (f, i.obj) in rows && rows[(f, i.obj)].tenant == i.tenant
        ensures Encoded(lib, defs[f].fieldType, i.data.value[defs[f].slug]) == Some(rows[(f, i.obj)].columns)
      {
        assert Agrees(lib, defs, i, m, old(rows), rows, f, i.obj) && CanStore(lib, defs, i, f);
        EncodesExactlyTheStorable(lib, defs[f].fieldType, i.data.value[defs[f].slug]);
      }
    }

    /** validate_custom_data: an exception that is no ValidationError ends it; otherwise the errors name
        exactly the active fields whose validator rejects. */
    method Validate(t: TenantId, m: Module, data: map<string, Json>) returns (errors: set<string>, raised: bool)
      ensures raised <==> exists f: FieldId :: VerdictOf(t, m, data, f) == Escapes
      ensures !raised ==> forall s :: s in errors <==>
        exists f: FieldId :: f in defs && defs[f].slug == s && VerdictOf(t, m, data, f) == Rejects
    {
      var pending := defs.Keys;
      errors, raised := {}, false;
      while pending != {}
        invariant pending <= defs.Keys && !raised
        invariant forall f: FieldId :: f in defs && f !in pending ==> VerdictOf(t, m, data, f) != Escapes
        invariant forall s :: s in errors <==>
          exists f: FieldId :: f in defs && f !in pending && defs[f].slug == s && VerdictOf(t, m, data, f) == Rejects
      {
        var f :| f in pending;
        var d := defs[f];
        pending := pending - {f};
        if Belongs(defs, f, t, m) && d.active {
          var verdict := Validated(lib, d, if d.slug in data then data[d.slug] else JNull);
          assert verdict == VerdictOf(t, m, data, f);
          if verdict == Escapes {
            return errors, true;
          }
          if verdict == Rejects {
            errors := errors + {d.slug};
          }
        }
      }
      assert forall f: FieldId :: f !in defs ==> VerdictOf(t, m, data, f) == Accepts;
    }

    // The verdict on a field of the map; fields that are not consulted accept.
    function VerdictOf(t: TenantId, m: Module, data: map<string, Json>, f: FieldId): Verdict {
      if Belongs(defs, f, t, m) && defs[f].active
      then Validated(lib, defs[f], if defs[f].slug in data then data[defs[f].slug] else JNull) else Accepts
    }
  }
}
