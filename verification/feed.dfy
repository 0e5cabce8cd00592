/** The shape of the API response, the choice of the entry list in it, and the
    normalisation of each raw entry onto a canonical MedalEntry. */
module Feed {
  import opened Entries

  datatype Option<T> = None | Some(value: T) {
    /** `this ?? default`: the value if there is one, else the default. */
    function GetOr(default: T): T
    {
      match this
      case Some(v) => v
      case None => default
    }
  }

  /** One raw country record of the API response. Each field is None when the key is
      absent, undefined or null (the three cases `??` treats alike). The JSON keys are
      country_name, country, name, flag_url, flag, gold, gold_medals, silver,
      silver_medals, bronze, bronze_medals, total and total_medals. */
  datatype RawEntry = RawEntry(
    countryName: Option<string>,
    country: Option<string>,
    name: Option<string>,
    flagUrl: Option<string>,
    flag: Option<string>,
    gold: Option<int>,
    goldMedals: Option<int>,
    silver: Option<int>,
    silverMedals: Option<int>,
    bronze: Option<int>,
    bronzeMedals: Option<int>,
    total: Option<int>,
    totalMedals: Option<int>)

  /** An element of the entry list: a value whose properties can be read (an object, or a
      number or string, whose alias keys all read as undefined), or null/undefined, on
      which reading a property throws. */
  datatype Item = Record(raw: RawEntry) | Nullish

  /** The parsed response body, as far as the pipeline looks at it. Under an object, each
      of the four conventional keys is None when absent. */
  datatype Json =
    | JNull
    | JScalar
    | JArray(items: seq<Item>)
    | JObject(results: Option<Json>, medals: Option<Json>, data: Option<Json>, countries: Option<Json>)

  /** How the request ended: no API key configured (unset or empty), a non-OK HTTP
      status, an exception from the fetch or the body parser, or a parsed body. */
  datatype Outcome = MissingKey | HttpNotOk(status: int) | Threw | Ok(body: Json)

  /** The first non-nullish alternative of an ordered alias list, the meaning of
      `a ?? b ?? c`. */
  function First<T>(alts: seq<Option<T>>): (r: Option<T>)
    ensures r.None? <==> forall i | 0 <= i < |alts| :: alts[i].None?
    ensures r.Some? ==> r in alts
  {
    if alts == [] then None
    else if alts[0].Some? then alts[0]
    else First(alts[1..])
  }

  /** First picks the alternative at k when every earlier one is nullish. */
  lemma {:induction false} FirstAt<T>(alts: seq<Option<T>>, k: nat)
    requires k < |alts| && alts[k].Some?
    requires forall j | 0 <= j < k :: alts[j].None?
    ensures First(alts) == alts[k]
  {
    if k > 0 {
      assert alts[0].None?;
      FirstAt(alts[1..], k - 1);
    }
  }

  /** A key's value with a JSON null read as absent. */
  function Defined(v: Option<Json>): (r: Option<Json>)
    ensures r.None? <==> (v.None? || v.value.JNull?)
    ensures r.Some? ==> r == v
  {
    if v.Some? && v.value.JNull? then None else v
  }

  /** The four conventional keys of an object body, in the order they are tried. */
  function Keys(body: Json): (ks: seq<Option<Json>>)
    requires body.JObject?
    ensures |ks| == 4
  {
    [Defined(body.results), Defined(body.medals), Defined(body.data), Defined(body.countries)]
  }

  /** A list that is used only when it is not empty. */
  function NonEmpty(items: seq<Item>): (r: Option<seq<Item>>)
    ensures r.Some? <==> items != []
    ensures r.Some? ==> r.value == items
  {
    if items == [] then None else Some(items)
  }

  /** The entry list of a response body, or None when the pipeline falls back: a null
      body (reading a key of null throws), a scalar body (no key is defined), an object
      whose first defined key is not an array or none of the keys is defined, or an empty
      list. */
  function SelectEntries(body: Json): (r: Option<seq<Item>>)
    ensures r.Some? ==> r.value != []
    ensures body.JArray? ==> r == NonEmpty(body.items)
    ensures body.JNull? || body.JScalar? ==> r.None?
    ensures body.JObject? && (forall k | 0 <= k < 4 :: Keys(body)[k].None?) ==> r.None?
  {
    match body
    case JArray(items) => NonEmpty(items)
    case JObject(_, _, _, _) =>
      var v := First(Keys(body));
      if v.Some? && v.value.JArray? then NonEmpty(v.value.items) else None
    case _ => None
  }

  /** Under an object body, the first defined key among results, medals, data and
      countries decides: its list if it is a non-empty array, otherwise the fallback. */
  lemma ObjectSelection(body: Json, k: nat)
    requires body.JObject? && k < 4
    requires forall j | 0 <= j < k :: Keys(body)[j].None?
    requires Keys(body)[k].Some?
    ensures var v := Keys(body)[k].value;
      SelectEntries(body) == if v.JArray? then NonEmpty(v.items) else None
  {
    FirstAt(Keys(body), k);
  }

  /** Maps a raw record onto a canonical entry with rank 0: each field takes the first
      of its aliases that is present, the counts default to 0, the total to the sum of the
      counts, and the score is the weighted score of the counts. */
  function Normalize(e: RawEntry): (m: MedalEntry)
    ensures m.rank == 0
    ensures ScoreConsistent(m)
    ensures e.total.None? && e.totalMedals.None? ==> m.total == m.gold + m.silver + m.bronze
  {
    var country := e.countryName.GetOr(e.country.GetOr(e.name.GetOr("Unknown")));
    var flagUrl := e.flagUrl.GetOr(e.flag.GetOr(""));
    var gold := e.gold.GetOr(e.goldMedals.GetOr(0));
    var silver := e.silver.GetOr(e.silverMedals.GetOr(0));
    var bronze := e.bronze.GetOr(e.bronzeMedals.GetOr(0));
    var total := e.total.GetOr(e.totalMedals.GetOr(gold + silver + bronze));
    MedalEntry(0, country, flagUrl, gold, silver, bronze, total, MultiplyMedals(gold, silver, bronze))
  }

  /** A chain `a ?? b ?? default` is the first present entry of the list [a, b]. */
  lemma FirstOfTwo<T>(a: Option<T>, b: Option<T>, default: T)
    ensures a.GetOr(b.GetOr(default)) == First([a, b]).GetOr(default)
  {
    assert [a, b][1..] == [b];
    assert [b][1..] == [];
  }

  /** A chain `a ?? b ?? c ?? default` is the first present entry of the list [a, b, c]. */
  lemma FirstOfThree<T>(a: Option<T>, b: Option<T>, c: Option<T>, default: T)
    ensures a.GetOr(b.GetOr(c.GetOr(default))) == First([a, b, c]).GetOr(default)
  {
    assert [a, b, c][1..] == [b, c];
    FirstOfTwo(b, c, default);
  }

  /** Every field of a normalised entry is the first present alias of its ordered alias
      list, with the documented default when none is present. */
  lemma NormalizeAliases(e: RawEntry)
    ensures var m := Normalize(e);
      && m.country == First([e.countryName, e.country, e.name]).GetOr("Unknown")
      && m.flagUrl == First([e.flagUrl, e.flag]).GetOr("")
      && m.gold == First([e.gold, e.goldMedals]).GetOr(0)
      && m.silver == First([e.silver, e.silverMedals]).GetOr(0)
      && m.bronze == First([e.bronze, e.bronzeMedals]).GetOr(0)
      && m.total == First([e.total, e.totalMedals]).GetOr(m.gold + m.silver + m.bronze)
  {
    var m := Normalize(e);
    FirstOfThree(e.countryName, e.country, e.name, "Unknown");
    FirstOfTwo(e.flagUrl, e.flag, "");
    FirstOfTwo(e.gold, e.goldMedals, 0);
    FirstOfTwo(e.silver, e.silverMedals, 0);
    FirstOfTwo(e.bronze, e.bronzeMedals, 0);
    FirstOfTwo(e.total, e.totalMedals, m.gold + m.silver + m.bronze);
  }

  /** `entries.map(normalise)`: None when some element is null or undefined (reading its
      properties throws), otherwise one normalised entry per element, in order. */
  function NormalizeAll(items: seq<Item>): (r: Option<seq<MedalEntry>>)
    ensures r.Some? <==> forall i | 0 <= i < |items| :: items[i].Record?
    ensures r.Some? ==> |r.value| == |items|
    ensures r.Some? ==> forall i | 0 <= i < |items| :: r.value[i] == Normalize(items[i].raw)
  {
    if items == [] then Some([])
    else if items[0].Nullish? then None
    else
      match NormalizeAll(items[1..])
      case None => None
      case Some(rest) => Some([Normalize(items[0].raw)] + rest)
  }
}
