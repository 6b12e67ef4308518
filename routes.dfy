/** The `/names`, `/names/random` and `/names/:id` handlers of
    `src/v1/index.ts`, as functions from the loaded catalogue and the request
    parameters to the response envelope. */
module Routes {
  import opened Wrappers
  import opened JsString
  import opened JsNumber
  import opened Catalogue
  import FisherYates

  /** The `{ success, status, data }` body every handler sends. */
  datatype Envelope<T> = Envelope(success: bool, status: int, data: Nullable<T>) {
    /** `success` mirrors a 200 status, and only a success carries data. */
    predicate WellFormed() {
      success == (status == 200) && (data.NonNull? <==> success)
    }
  }

  function Ok<T>(data: T): Envelope<T> {
    Envelope(true, 200, NonNull(data))
  }

  function Fail<T>(status: int): Envelope<T> {
    Envelope(false, status, Null)
  }

  /** `names.map((name) => formatName(name, lang))`. */
  function FormatAll(names: seq<Name>, lang: Lang): seq<FormattedName> {
    seq(|names|, k requires 0 <= k < |names| => FormatName(names[k], lang))
  }

  // ---------------------------------------------------------------- /names

  /** The search predicate of `/names`: the lowercased meaning, tafsir or
      insight of the chosen language holds the query. */
  predicate Matches(name: Name, lang: Lang, q: string) {
    var t := name.translations.Of(lang);
    Includes(Lower(t.meaning), q) || Includes(Lower(t.tafsir), q)
    || (t.insight.Some? && Includes(Lower(t.insight.value), q))
  }

  /** The callback `/names` hands to `filter`. */
  function Matcher(lang: Lang, q: string): Name -> bool {
    name => Matches(name, lang, q)
  }

  /** `Array.prototype.filter`: the elements `keep` accepts, each as often as
      in the input. */
  function Filter<T>(s: seq<T>, keep: T -> bool): (r: seq<T>)
    ensures |r| <= |s| && multiset(r) <= multiset(s)
    ensures forall x :: x in r ==> keep(x)
    ensures forall x :: x in s && keep(x) ==> x in r
  {
    if s == [] then []
    else
      var rest := Filter(s[1..], keep);
      assert s == [s[0]] + s[1..];
      if keep(s[0]) then [s[0]] + rest else rest
  }

  /** Filtering keeps the input's order: it works piece by piece. */
  lemma {:induction false} FilterConcat<T>(a: seq<T>, b: seq<T>, keep: T -> bool)
    ensures Filter(a + b, keep) == Filter(a, keep) + Filter(b, keep)
  {
    if a == [] {
      assert a + b == b;
    } else {
      assert (a + b)[0] == a[0] && (a + b)[1..] == a[1..] + b;
      FilterConcat(a[1..], b, keep);
    }
  }

  /** When `keep` accepts every element, filtering returns the input. */
  lemma {:induction false} FilterKeepsAccepted<T>(s: seq<T>, keep: T -> bool)
    requires forall k :: 0 <= k < |s| ==> keep(s[k])
    ensures Filter(s, keep) == s
  {
    if s != [] {
      FilterKeepsAccepted(s[1..], keep);
    }
  }

  /** Filtering leaves nothing exactly when `keep` accepts no element. */
  lemma FilterEmpty<T>(s: seq<T>, keep: T -> bool)
    ensures Filter(s, keep) == [] <==> forall k :: 0 <= k < |s| ==> !keep(s[k])
  {
    if exists k :: 0 <= k < |s| && keep(s[k]) {
      var k :| 0 <= k < |s| && keep(s[k]);
      assert s[k] in Filter(s, keep);
    }
  }

  /** `GET /names?lang=&q=`. */
  function ListNames(names: seq<Name>, langParam: Param, qParam: Param): (r: Envelope<seq<FormattedName>>)
    ensures r.WellFormed() && (r.status == 200 || r.status == 404)
    ensures var lang, q := ParseLang(langParam), ParseQuery(qParam);
      && (q == "" ==> r == Ok(FormatAll(names, lang)))
      && (q != "" ==> (r.status == 404 <==> forall k :: 0 <= k < |names| ==> !Matches(names[k], lang, q)))
      && (r.success ==> r.data.value == FormatAll(Filter(names, Matcher(lang, q)), lang))
  {
    var lang := ParseLang(langParam);
    var q := ParseQuery(qParam);
    if q == "" then
      FilterKeepsAllOnEmptyQuery(names, lang);
      Ok(FormatAll(names, lang))
    else
      var filtered := Filter(names, Matcher(lang, q));
      FilterEmpty(names, Matcher(lang, q));
      assert forall k :: 0 <= k < |names| ==> Matcher(lang, q)(names[k]) == Matches(names[k], lang, q);
      if |filtered| == 0 then Fail(404) else Ok(FormatAll(filtered, lang))
  }

  /** The empty query is held by every string, so it selects every record. */
  lemma FilterKeepsAllOnEmptyQuery(names: seq<Name>, lang: Lang)
    ensures Filter(names, Matcher(lang, "")) == names
  {
    forall k | 0 <= k < |names| ensures Matcher(lang, "")(names[k]) {
      assert OccursAt(Lower(names[k].translations.Of(lang).meaning), "", 0);
    }
    FilterKeepsAccepted(names, Matcher(lang, ""));
  }

  // --------------------------------------------------------- /names/random

  /** `Number(count) || 1`: NaN and 0 are falsy and become 1. */
  function RequestedCount(countParam: Param): (c: int)
    ensures c != 0
    ensures countParam.Str? && ParseNumber(countParam.s).Some? && ParseNumber(countParam.s).value != 0
      ==> c == ParseNumber(countParam.s).value
    ensures !countParam.Str? || ParseNumber(countParam.s) == None || ParseNumber(countParam.s) == Some(0)
      ==> c == 1
  {
    var n := if countParam.Str? then ParseNumber(countParam.s) else None;
    match n
    case Some(v) => if v == 0 then 1 else v
    case None => 1
  }

  /** The end position `Array.prototype.slice(0, end)` uses on an array of
      length `len`: a negative end counts back from the length. */
  function SliceEnd(len: nat, end: int): (r: nat)
    ensures r <= len
  {
    if end < 0 then Max(len + end, 0) else Min(end, len)
  }

  /** How many records `/names/random` returns from a catalogue of `n` for
      the count `Number(count) || 1`: `slice(0, Math.min(count, n))`. */
  function SampleSize(n: nat, count: int): (k: nat)
    ensures k <= n
    ensures n == 0 ==> k == 0
    ensures count > 0 ==> k == Min(count, n)
    ensures count < 0 ==> k == Max(n + count, 0)
  {
    SliceEnd(n, Min(count, n))
  }

  /** For a count written in decimal: 0 falls back to one record, a positive
      count is capped by the catalogue size, and a negative count drops that
      many records from the end. */
  lemma SampleSizeOfDecimal(n: nat, c: int)
    ensures SampleSize(n, RequestedCount(Str(IntToString(c))))
      == if c == 0 then Min(1, n) else if c > 0 then Min(c, n) else Max(n + c, 0)
  {
    ParseNumberRoundTrip(c);
  }

  /** `GET /names/random?lang=&count=`, with the draws `Math.random` would
      have returned. */
  method RandomNames(names: seq<Name>, langParam: Param, countParam: Param, draws: seq<real>)
    returns (r: Envelope<seq<FormattedName>>)
    requires |names| <= |draws| + 1 && FisherYates.ValidDraws(draws)
    ensures r.WellFormed() && r.success
    ensures |r.data.value| == SampleSize(|names|, RequestedCount(countParam)) <= |names|
    ensures var sample := FisherYates.Shuffle(names, draws)[..SampleSize(|names|, RequestedCount(countParam))];
      multiset(sample) <= multiset(names) && r.data.value == FormatAll(sample, ParseLang(langParam))
  {
    var lang := ParseLang(langParam);
    var count := RequestedCount(countParam);
    count := Min(count, |names|);
    var shuffled := FisherYates.ShuffledCopy(names, draws);
    var end := SliceEnd(|shuffled|, count);
    FisherYates.SampleFromShuffle(names, draws, end);
    r := Ok(FormatAll(shuffled[..end], lang));
  }

  // ------------------------------------------------------------ /names/:id

  /** The keys of a formatted record's `name` object. */
  datatype Field = Meaning | Tafsir | Insight

  function FieldKey(field: Field): string {
    match field
    case Meaning => "meaning"
    case Tafsir => "tafsir"
    case Insight => "insight"
  }

  /** `key in result.name`, answered with the key's field. */
  function FieldOf(key: string): (r: Option<Field>)
    ensures r.Some? ==> FieldKey(r.value) == key
    ensures r.None? ==> forall field :: FieldKey(field) != key
  {
    if key == "meaning" then Some(Meaning)
    else if key == "tafsir" then Some(Tafsir)
    else if key == "insight" then Some(Insight)
    else None
  }

  /** `result.name[prop]`. */
  function Project(t: FormattedTranslation, field: Field): Nullable<string> {
    match field
    case Meaning => NonNull(t.meaning)
    case Tafsir => NonNull(t.tafsir)
    case Insight => t.insight
  }

  /** `if (prop)`: a missing or empty `prop` selects nothing. */
  predicate Truthy(p: Param) {
    p.Other? || (p.Str? && p.s != "")
  }

  /** The field a `prop` parameter names; a value that is not a string names
      none. */
  function PropField(p: Param): Option<Field> {
    if p.Str? then FieldOf(p.s) else None
  }

  /** The success payload of `/names/:id`: the whole record, or the
      single-key object `{ [prop]: value }`. */
  datatype LookupData = Full(record: FormattedName) | Single(field: Field, value: Nullable<string>)

  /** `cachedNames.find((name) => name.id === id)`, as the position found. */
  function FindIndex(names: seq<Name>, id: int): (r: Option<nat>)
    ensures r.None? <==> forall k :: 0 <= k < |names| ==> names[k].id != id
    ensures r.Some? ==>
      r.value < |names| && names[r.value].id == id && forall k :: 0 <= k < r.value ==> names[k].id != id
  {
    if names == [] then None
    else if names[0].id == id then Some(0)
    else
      match FindIndex(names[1..], id)
      case None => None
      case Some(k) => Some(k + 1)
  }

  /** The `prop` stage of `/names/:id` for the record found: no `prop` gives
      the whole record, a key of `name` gives the single-key object, and any
      other `prop` is a 400. */
  function SelectProp(found: FormattedName, prop: Param): (r: Envelope<LookupData>)
    ensures r.WellFormed() && (r.status == 200 || r.status == 400)
    ensures !Truthy(prop) ==> r == Ok(Full(found))
    ensures Truthy(prop) ==> (r.status == 400 <==> PropField(prop).None?)
    ensures Truthy(prop) && r.success ==>
      r.data.value == Single(PropField(prop).value, Project(found.name, PropField(prop).value))
  {
    if !Truthy(prop) then Ok(Full(found))
    else
      match PropField(prop)
      case None => Fail(400)
      case Some(field) => Ok(Single(field, Project(found.name, field)))
  }

  /** `GET /names/:id?lang=&prop=`. */
  function LookupName(names: seq<Name>, rawId: string, langParam: Param, prop: Param): (r: Envelope<LookupData>)
    ensures r.WellFormed() && (r.status == 200 || r.status == 400 || r.status == 404)
    ensures ParseNumber(rawId).None? ==> r == Fail(400)
    ensures (ParseNumber(rawId).Some? &&
             forall k :: 0 <= k < |names| ==> names[k].id != ParseNumber(rawId).value) ==> r == Fail(404)
    ensures forall k :: (0 <= k < |names| && ParseNumber(rawId) == Some(names[k].id) &&
                         forall j :: 0 <= j < k ==> names[j].id != names[k].id) ==>
      r == SelectProp(FormatName(names[k], ParseLang(langParam)), prop)
  {
    var lang := ParseLang(langParam);
    match ParseNumber(rawId)
    case None => Fail(400)
    case Some(id) =>
      match FindIndex(names, id)
      case None => Fail(404)
      case Some(k) =>
        assert forall k' :: (0 <= k' < |names| && names[k'].id == id &&
                             forall j :: 0 <= j < k' ==> names[j].id != id) ==> k' == k;
        SelectProp(FormatName(names[k], lang), prop)
  }

  /** The catalogue's identifiers are unique. */
  predicate UniqueIds(names: seq<Name>) {
    forall i, j :: 0 <= i < j < |names| ==> names[i].id != names[j].id
  }

  /** With unique identifiers, asking without `prop` for any id string that
      reads as a record's identifier returns that very record. */
  lemma LookupFindsRecord(names: seq<Name>, k: nat, rawId: string, langParam: Param)
    requires UniqueIds(names) && k < |names|
    requires ParseNumber(rawId) == Some(names[k].id)
    ensures LookupName(names, rawId, langParam, Absent) == Ok(Full(FormatName(names[k], ParseLang(langParam))))
  {
    assert forall j :: 0 <= j < k ==> names[j].id != names[k].id;
    var found := FormatName(names[k], ParseLang(langParam));
    assert SelectProp(found, Absent) == Ok(Full(found));
  }

  /** In particular, the decimal rendering of a record's identifier finds
      it. */
  lemma LookupFindsRecordByDecimalId(names: seq<Name>, k: nat, langParam: Param)
    requires UniqueIds(names) && k < |names|
    ensures LookupName(names, IntToString(names[k].id), langParam, Absent)
      == Ok(Full(FormatName(names[k], ParseLang(langParam))))
  {
    ParseNumberRoundTrip(names[k].id);
    LookupFindsRecord(names, k, IntToString(names[k].id), langParam);
  }
}
