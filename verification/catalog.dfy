/** The catalog normaliser: every `(key, record)` entry of the parsed catalog becomes an
    object literal that fills each known field with a default (`pkg.field || default`)
    and then spreads the raw record over it (`...pkg`). */
module Catalog {
  import opened Text
  import opened Packages

  /** A parsed JSON value. */
  datatype Value = Null | Bool(b: bool) | Num(x: real) | Str(s: string) | Arr(items: seq<Value>) | Obj(fields: map<string, Value>)

  /** JavaScript truthiness of a JSON value. */
  predicate IsTruthy(v: Value) {
    match v
    case Null => false
    case Bool(b) => b
    case Num(x) => x != 0.0
    case Str(s) => s != ""
    case Arr(_) => true
    case Obj(_) => true
  }

  /** The own properties the spread copies: an object's fields; a boolean or number
      has none. */
  function OwnFields(raw: Value): map<string, Value> {
    if raw.Obj? then raw.fields else map[]
  }

  /** `pkg.f`: the property if the record has it, `undefined` (`None`) otherwise. */
  function Prop(raw: Value, f: string): Option<Value> {
    if f in OwnFields(raw) then Some(OwnFields(raw)[f]) else None
  }

  /** `pkg.f || dflt`. */
  function Or(o: Option<Value>, dflt: Value): (r: Value)
    ensures o.Some? && IsTruthy(o.value) ==> r == o.value
    ensures !(o.Some? && IsTruthy(o.value)) ==> r == dflt
  {
    if o.Some? && IsTruthy(o.value) then o.value else dflt
  }

  /** The fields the object literal names before the spread. */
  datatype Field =
    | Key | Name | Version | Type | Architecture | Description | Maintainer | License | Homepage
    | Dependencies | Conflicts | Tags | Provides | Replaces | Conf | SourceRepo | LastUpdated

  function FieldName(f: Field): string {
    match f
    case Key => "key"
    case Name => "name"
    case Version => "version"
    case Type => "type"
    case Architecture => "architecture"
    case Description => "description"
    case Maintainer => "maintainer"
    case License => "license"
    case Homepage => "homepage"
    case Dependencies => "dependencies"
    case Conflicts => "conflicts"
    case Tags => "tags"
    case Provides => "provides"
    case Replaces => "replaces"
    case Conf => "conf"
    case SourceRepo => "_source_repo"
    case LastUpdated => "_last_updated"
  }

  /** The named fields in the order the literal lists them. */
  const AllFields: seq<Field> := [
    Key, Name, Version, Type, Architecture, Description, Maintainer, License, Homepage,
    Dependencies, Conflicts, Tags, Provides, Replaces, Conf, SourceRepo, LastUpdated]

  lemma AllFieldsListed(f: Field)
    ensures f in AllFields
  {
  }

  /** No two fields share a name. */
  lemma FieldNameInjective(f: Field, g: Field)
    requires FieldName(f) == FieldName(g)
    ensures f == g
  {
  }

  function Names(fields: seq<Field>): set<string> {
    set i | 0 <= i < |fields| :: FieldName(fields[i])
  }

  const NamedFields: set<string> := Names(AllFields)

  /** The default of each named field: the catalog key for `key` and `name`. */
  function Fallback(f: Field, key: string): Value {
    match f
    case Key => Str(key)
    case Name => Str(key)
    case Version => Str("unknown")
    case Type => Str("unknown")
    case Architecture => Str("N/A")
    case Description => Str("No description available")
    case Maintainer => Str("Unknown")
    case License => Str("Not specified")
    case Homepage => Str("#")
    case Dependencies => Arr([])
    case Conflicts => Arr([])
    case Tags => Arr([])
    case Provides => Arr([])
    case Replaces => Arr([])
    case Conf => Arr([])
    case SourceRepo => Str("#")
    case LastUpdated => Null
  }

  /** The literal's value for field `f` before the spread: `key` is the catalog key,
      every other field is `pkg.f || default`. */
  function Filled(f: Field, key: string, raw: Value): Value {
    if f == Key then Str(key) else Or(Prop(raw, FieldName(f)), Fallback(f, key))
  }

  /** An object literal listing `fields` in order, each with the value `valueOf` gives
      it; a later property of the same name would win. */
  function Literal(fields: seq<Field>, valueOf: Field -> Value): map<string, Value> {
    if fields == [] then map[]
    else Literal(fields[..|fields| - 1], valueOf)[FieldName(fields[|fields| - 1]) := valueOf(fields[|fields| - 1])]
  }

  /** The literal has exactly the listed names, each with its field's value. */
  lemma {:induction false} LiteralFields(fields: seq<Field>, valueOf: Field -> Value)
    ensures Literal(fields, valueOf).Keys == Names(fields)
    ensures forall f :: f in fields ==> Literal(fields, valueOf)[FieldName(f)] == valueOf(f)
  {
    if fields != [] {
      var init, last := fields[..|fields| - 1], fields[|fields| - 1];
      LiteralFields(init, valueOf);
      assert fields == init + [last];
      assert Names(fields) == Names(init) + {FieldName(last)} by {
        forall k | k in Names(fields) ensures k in Names(init) + {FieldName(last)} {
          var i :| 0 <= i < |fields| && FieldName(fields[i]) == k;
          if i < |init| {
            assert fields[i] == init[i];
          }
        }
        forall k | k in Names(init) ensures k in Names(fields) {
          var i :| 0 <= i < |init| && FieldName(init[i]) == k;
          assert fields[i] == init[i];
        }
      }
      forall f | f in fields ensures Literal(fields, valueOf)[FieldName(f)] == valueOf(f) {
        if FieldName(f) == FieldName(last) {
          FieldNameInjective(f, last);
        } else {
          assert f in init;
        }
      }
    }
  }

  /** The object literal without its trailing spread. */
  function Defaults(key: string, raw: Value): map<string, Value> {
    Literal(AllFields, f => Filled(f, key, raw))
  }

  /** Every named field is in the literal with its filled-in value. */
  lemma DefaultsAt(key: string, raw: Value, f: Field)
    ensures FieldName(f) in NamedFields
    ensures FieldName(f) in Defaults(key, raw) && Defaults(key, raw)[FieldName(f)] == Filled(f, key, raw)
  {
    LiteralFields(AllFields, g => Filled(g, key, raw));
    AllFieldsListed(f);
    var i :| 0 <= i < |AllFields| && AllFields[i] == f;
  }

  /** One entry: the defaults, overridden by every field the raw record has. The result
      has the named fields and the record's own fields; each of the latter keeps its raw
      value, falsy or not, and each named field the record lacks gets its default (the
      catalog key for `key` and `name`). Reading a property of `null` throws, so a
      `null` record is excluded here and handled by `Normalize`. */
  function NormalizeEntry(key: string, raw: Value): (r: map<string, Value>)
    requires raw != Null
    ensures forall k :: k in OwnFields(raw) ==> k in r && r[k] == OwnFields(raw)[k]
    ensures forall f :: FieldName(f) !in OwnFields(raw) ==> FieldName(f) in r && r[FieldName(f)] == Fallback(f, key)
  {
    LiteralFields(AllFields, f => Filled(f, key, raw));
    forall f ensures FieldName(f) in Defaults(key, raw) && Defaults(key, raw)[FieldName(f)] == Filled(f, key, raw) {
      DefaultsAt(key, raw, f);
    }
    Defaults(key, raw) + OwnFields(raw)
  }

  /** The entry has exactly the named fields and the record's own fields. */
  lemma NormalizedKeys(key: string, raw: Value)
    requires raw != Null
    ensures NormalizeEntry(key, raw).Keys == NamedFields + OwnFields(raw).Keys
  {
    LiteralFields(AllFields, f => Filled(f, key, raw));
  }

  /** The table of plain defaults, as the literal would be without its `pkg.f ||` reads. */
  function Table(key: string): map<string, Value> {
    Literal(AllFields, f => Fallback(f, key))
  }

  lemma TableAt(key: string, f: Field)
    ensures FieldName(f) in Table(key) && Table(key)[FieldName(f)] == Fallback(f, key)
  {
    LiteralFields(AllFields, g => Fallback(g, key));
    AllFieldsListed(f);
  }

  /** The `pkg.f ||` reads never decide anything: a field the record has is replaced by
      the spread, and one it lacks reads `undefined`. The entry is the table of plain
      defaults with the raw record spread over it. */
  lemma OrIsOverridden(key: string, raw: Value)
    requires raw != Null
    ensures NormalizeEntry(key, raw) == Table(key) + OwnFields(raw)
  {
    var r := NormalizeEntry(key, raw);
    var own := OwnFields(raw);
    var plain := Table(key) + own;
    NormalizedKeys(key, raw);
    forall k | k in r ensures k in plain && r[k] == plain[k] {
      if k !in own {
        var i :| 0 <= i < |AllFields| && FieldName(AllFields[i]) == k;
        TableAt(key, AllFields[i]);
      }
    }
    forall k | k in plain ensures k in r {
      if k !in own {
        LiteralFields(AllFields, g => Fallback(g, key));
      }
    }
    assert r.Keys == plain.Keys;
  }

  /** `Object.entries(data).map(...)`: one record per entry, in entry order; a `null`
      record makes the callback throw, which fails the whole load (`None`). */
  function Normalize(entries: seq<(string, Value)>): (r: Option<seq<map<string, Value>>>)
    ensures r.Some? <==> forall i :: 0 <= i < |entries| ==> entries[i].1 != Null
    ensures r.Some? ==> |r.value| == |entries|
  {
    if entries == [] then Some([])
    else if entries[0].1 == Null then None
    else
      match Normalize(entries[1..])
      case None => None
      case Some(rest) => Some([NormalizeEntry(entries[0].0, entries[0].1)] + rest)
  }

  /** Each record comes from the entry at the same position. */
  lemma {:induction false} NormalizeInOrder(entries: seq<(string, Value)>)
    requires Normalize(entries).Some?
    ensures forall i :: 0 <= i < |entries| ==>
      entries[i].1 != Null && Normalize(entries).value[i] == NormalizeEntry(entries[i].0, entries[i].1)
  {
    if entries != [] {
      NormalizeInOrder(entries[1..]);
    }
  }

  // ---------------------------------------------------------------- as seen by the filters

  /** A string field as the filters read it: missing, `null` or a non-string is `None`. */
  function StrField(rec: map<string, Value>, f: string): Option<string> {
    if f in rec && rec[f].Str? then Some(rec[f].s) else None
  }

  /** The normalised record as the `Package` the filters and views work on. */
  function AsPackage(rec: map<string, Value>): Package {
    Package(
      OrElse(StrField(rec, "key"), ""),
      OrElse(StrField(rec, "name"), ""),
      OrElse(StrField(rec, "version"), ""),
      StrField(rec, "type"),
      StrField(rec, "architecture"),
      StrField(rec, "description"),
      StrField(rec, "maintainer"),
      StrField(rec, "license"),
      StrField(rec, "_source_repo"))
  }

  /** A string field the raw record lacks reads as its default. */
  lemma AbsentStringField(key: string, raw: Value, f: Field)
    requires raw != Null && FieldName(f) !in OwnFields(raw) && Fallback(f, key).Str?
    ensures StrField(NormalizeEntry(key, raw), FieldName(f)) == Some(Fallback(f, key).s)
  {
  }

  // On loaded data the filters' `'unknown'` fallback (`pkg.f || 'unknown'`) fires only
  // for a field the raw record has and leaves falsy or non-string: a missing field reads
  // as the normaliser's default instead.

  /** A missing architecture reads `N/A`. */
  lemma MissingArchitectureReadsNA(key: string, raw: Value)
    requires raw != Null && "architecture" !in OwnFields(raw)
    ensures ArchOrUnknown(AsPackage(NormalizeEntry(key, raw))) == "N/A"
  {
    var r := NormalizeEntry(key, raw);
    AbsentStringField(key, raw, Architecture);
    assert StrField(r, "architecture") == Some("N/A");
  }

  /** A missing maintainer reads `Unknown`, capitalised, so no package of the catalog
      lands in the sidebar's lower-case `unknown` maintainer bucket for lack of one. */
  lemma MissingMaintainerReadsUnknown(key: string, raw: Value)
    requires raw != Null && "maintainer" !in OwnFields(raw)
    ensures MaintainerOrUnknown(AsPackage(NormalizeEntry(key, raw))) == "Unknown"
  {
    var r := NormalizeEntry(key, raw);
    AbsentStringField(key, raw, Maintainer);
    assert StrField(r, "maintainer") == Some("Unknown");
  }

  /** A missing license reads `Not specified`. */
  lemma MissingLicenseReadsNotSpecified(key: string, raw: Value)
    requires raw != Null && "license" !in OwnFields(raw)
    ensures LicenseOrUnknown(AsPackage(NormalizeEntry(key, raw))) == "Not specified"
  {
    var r := NormalizeEntry(key, raw);
    AbsentStringField(key, raw, License);
    assert StrField(r, "license") == Some("Not specified");
  }

  /** A missing source repository reads `#`. */
  lemma MissingSourceReadsHash(key: string, raw: Value)
    requires raw != Null && "_source_repo" !in OwnFields(raw)
    ensures SourceOrUnknown(AsPackage(NormalizeEntry(key, raw))) == "#"
  {
    var r := NormalizeEntry(key, raw);
    AbsentStringField(key, raw, SourceRepo);
    assert StrField(r, "_source_repo") == Some("#");
  }

  /** A package the architecture filter reads as `unknown` had an architecture field of
      its own in the raw record. */
  lemma UnknownArchitectureWasPresent(key: string, raw: Value)
    requires raw != Null
    requires ArchOrUnknown(AsPackage(NormalizeEntry(key, raw))) == "unknown"
    ensures "architecture" in OwnFields(raw)
  {
    if "architecture" !in OwnFields(raw) {
      MissingArchitectureReadsNA(key, raw);
    }
  }
}
