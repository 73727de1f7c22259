/**
 * The facility search: one point-of-interest query per search term, the
 * responses gathered in term order, duplicates by exact position dropped
 * (first one kept), irrelevant results filtered out by a keyword list, at
 * most six display records built, and a fixed sample set substituted when
 * nothing relevant remains.
 */
module Facilities {
  import opened Wrappers
  import opened Seqs
  import opened Text
  import opened Geo

  // ---------------------------------------------------------------------------
  // Provider records and responses

  /** The `poi` part of a search hit: its name, category names and brand names. */
  datatype Poi = Poi(name: Option<string>, categories: seq<string>, brands: seq<Option<string>>)

  /** One search hit; `position` is absent when the provider omitted it. */
  datatype SearchResult = SearchResult(position: Option<Coordinate>, poi: Option<Poi>, address: Option<string>)

  /**
   * The outcome of one term's request: the request failed (network error or
   * unreadable body), the server answered with a non-OK status, or it answered
   * with a body whose `results` array may be missing.
   */
  datatype TermResponse =
    | TransportError
    | HttpError(status: int)
    | Body(results: Option<seq<SearchResult>>)

  const SearchTerms: seq<string> := [
    "data center", "server farm", "technology campus", "computing facility",
    "AI facility", "machine learning", "cloud computing", "technology company",
    "tech campus", "digital facility"
  ]

  /** What one response adds to the gathered results: the hits of an OK, non-empty body, else nothing. */
  function Contribution(resp: TermResponse): seq<SearchResult> {
    match resp
    case Body(Some(results)) => if |results| > 0 then results else []
    case _ => []
  }

  /** The results gathered after asking for every term of `terms`, in order. */
  function Gathered(terms: seq<string>, fetch: string -> TermResponse): seq<SearchResult>
    decreases |terms|
  {
    if terms == [] then []
    else Gathered(terms[..|terms| - 1], fetch) + Contribution(fetch(terms[|terms| - 1]))
  }

  /**
   * The per-term loop: each term is fetched in turn and an OK, non-empty
   * answer is appended; a failure is skipped and the loop goes on.
   */
  method GatherResults(terms: seq<string>, fetch: string -> TermResponse) returns (all: seq<SearchResult>)
    ensures all == Gathered(terms, fetch)
  {
    all := [];
    for i := 0 to |terms|
      invariant all == Gathered(terms[..i], fetch)
    {
      assert terms[..i + 1][..i] == terms[..i];
      var response := fetch(terms[i]);
      match response {
        case TransportError =>
        case HttpError(_) =>
        case Body(results) =>
          if results.Some? && |results.value| > 0 {
            all := all + results.value;
          }
      }
    }
    assert terms[..|terms|] == terms;
  }

  /** Gathering over two runs of terms is gathering over each in turn: a failed term never stops later ones. */
  lemma {:induction false} GatheredAppend(t1: seq<string>, t2: seq<string>, fetch: string -> TermResponse)
    ensures Gathered(t1 + t2, fetch) == Gathered(t1, fetch) + Gathered(t2, fetch)
    decreases |t2|
  {
    if t2 == [] {
      assert t1 + t2 == t1;
    } else {
      var init, last := t2[..|t2| - 1], t2[|t2| - 1];
      var all := t1 + t2;
      assert all[..|all| - 1] == t1 + init;
      assert all[|all| - 1] == last;
      GatheredAppend(t1, init, fetch);
      calc {
        Gathered(all, fetch);
        Gathered(t1 + init, fetch) + Contribution(fetch(last));
        Gathered(t1, fetch) + Gathered(init, fetch) + Contribution(fetch(last));
        Gathered(t1, fetch) + (Gathered(init, fetch) + Contribution(fetch(last)));
        Gathered(t1, fetch) + Gathered(t2, fetch);
      }
    }
  }

  /** A term whose request fails, is not OK or finds nothing adds nothing to the gathered results. */
  lemma FailedTermContributesNothing(t1: seq<string>, term: string, t2: seq<string>, fetch: string -> TermResponse)
    requires fetch(term).TransportError? || fetch(term).HttpError? ||
             (fetch(term).Body? && (fetch(term).results.None? || fetch(term).results.value == []))
    ensures Gathered(t1 + [term] + t2, fetch) == Gathered(t1, fetch) + Gathered(t2, fetch)
  {
    assert Contribution(fetch(term)) == [];
    assert Gathered([term], fetch) == [] by {
      assert [term][..0] == [];
    }
    GatheredAppend(t1 + [term], t2, fetch);
    GatheredAppend(t1, [term], fetch);
  }

  /** A hit is gathered exactly when some term's OK answer contains it. */
  lemma {:induction false} GatheredMembers(terms: seq<string>, fetch: string -> TermResponse, x: SearchResult)
    ensures x in Gathered(terms, fetch) <==> exists i :: 0 <= i < |terms| && x in Contribution(fetch(terms[i]))
    decreases |terms|
  {
    if terms != [] {
      var init := terms[..|terms| - 1];
      GatheredMembers(init, fetch, x);
      assert forall i :: 0 <= i < |init| ==> init[i] == terms[i];
    }
  }

  /**
   * When every term contributes nothing (its request fails, returns an HTTP
   * error, or answers with no or an empty `results`), nothing is gathered.
   */
  lemma {:induction false} AllFailedGathersNothing(terms: seq<string>, fetch: string -> TermResponse)
    requires forall i :: 0 <= i < |terms| ==> Contribution(fetch(terms[i])) == []
    ensures Gathered(terms, fetch) == []
    decreases |terms|
  {
    if terms != [] {
      AllFailedGathersNothing(terms[..|terms| - 1], fetch);
    }
  }

  // ---------------------------------------------------------------------------
  // Deduplication by exact position

  /** `self.findIndex(r => same position as p)`: the first index holding position `p`, or -1. */
  function FindIndex(s: seq<SearchResult>, p: Option<Coordinate>): (r: int)
    ensures -1 <= r < |s|
    ensures r >= 0 ==> s[r].position == p && forall j :: 0 <= j < r ==> s[j].position != p
    ensures r == -1 ==> forall j :: 0 <= j < |s| ==> s[j].position != p
  {
    if s == [] then -1
    else if s[0].position == p then 0
    else
      var k := FindIndex(s[1..], p);
      if k == -1 then -1 else k + 1
  }

  /** No earlier element of `s` has the position of `s[i]`. */
  predicate IsFirstAt(s: seq<SearchResult>, i: int)
    requires 0 <= i < |s|
  {
    forall j :: 0 <= j < i ==> s[j].position != s[i].position
  }

  /** The elements of `s[..n]` whose index is the `findIndex` of their own position. */
  function DedupPrefix(s: seq<SearchResult>, n: nat): (r: seq<SearchResult>)
    requires n <= |s|
    ensures |r| <= n
    ensures forall x :: x in r ==> x in s
  {
    if n == 0 then []
    else DedupPrefix(s, n - 1) + (if FindIndex(s, s[n - 1].position) == n - 1 then [s[n - 1]] else [])
  }

  /** `allResults.filter((result, index, self) => index === self.findIndex(same position))`. */
  function Dedup(s: seq<SearchResult>): (r: seq<SearchResult>)
    ensures |r| <= |s|
    ensures forall x :: x in r ==> x in s
  {
    DedupPrefix(s, |s|)
  }

  ghost function DedupIndices(s: seq<SearchResult>, n: nat): seq<int>
    requires n <= |s|
  {
    if n == 0 then []
    else DedupIndices(s, n - 1) + (if FindIndex(s, s[n - 1].position) == n - 1 then [n - 1] else [])
  }

  ghost predicate DistinctPositions(s: seq<SearchResult>) {
    forall a, b :: 0 <= a < b < |s| ==> s[a].position != s[b].position
  }

  ghost function PositionSet(s: seq<SearchResult>): set<Option<Coordinate>> {
    set i | 0 <= i < |s| :: s[i].position
  }

  /** The kept positions all lie below `n`. */
  lemma {:induction false} DedupIndicesBelow(s: seq<SearchResult>, n: nat)
    requires n <= |s|
    ensures forall k :: 0 <= k < |DedupIndices(s, n)| ==> DedupIndices(s, n)[k] < n
  {
    if n > 0 {
      DedupIndicesBelow(s, n - 1);
    }
  }

  /** `findIndex` of its own position returns `j` exactly when `s[j]` is the first at that position. */
  lemma FirstAtFound(s: seq<SearchResult>, j: int)
    requires 0 <= j < |s|
    ensures FindIndex(s, s[j].position) == j <==> IsFirstAt(s, j)
  {
    var found := FindIndex(s, s[j].position);
    if found != j {
      assert 0 <= found < j;
    }
  }

  /** A position below `n` is kept exactly when it is the first at its position. */
  lemma {:induction false} DedupIndicesFirsts(s: seq<SearchResult>, n: nat)
    requires n <= |s|
    ensures forall i :: 0 <= i < n ==> (i in DedupIndices(s, n) <==> IsFirstAt(s, i))
  {
    if n > 0 {
      DedupIndicesFirsts(s, n - 1);
      DedupIndicesBelow(s, n - 1);
      FirstAtFound(s, n - 1);
      var idx := DedupIndices(s, n - 1);
      assert n - 1 !in idx;
      forall i | 0 <= i < n ensures i in DedupIndices(s, n) <==> IsFirstAt(s, i) {
        if i < n - 1 {
          assert i in DedupIndices(s, n) <==> i in idx;
        }
      }
    }
  }

  /** The kept elements are those at the kept positions, in order. */
  lemma {:induction false} DedupPicks(s: seq<SearchResult>, n: nat)
    requires n <= |s|
    ensures Picks(DedupPrefix(s, n), s, DedupIndices(s, n))
  {
    if n > 0 {
      DedupPicks(s, n - 1);
      DedupIndicesBelow(s, n - 1);
      if FindIndex(s, s[n - 1].position) == n - 1 {
        PicksSnoc(DedupPrefix(s, n - 1), s, DedupIndices(s, n - 1), n - 1);
      }
    }
  }

  /** Dedup keeps an element exactly when no earlier element has its position, in input order. */
  lemma DedupKeepsFirsts(s: seq<SearchResult>, n: nat)
    requires n <= |s|
    ensures Picks(DedupPrefix(s, n), s, DedupIndices(s, n))
    ensures forall i :: 0 <= i < n ==> (i in DedupIndices(s, n) <==> IsFirstAt(s, i))
  {
    DedupPicks(s, n);
    DedupIndicesFirsts(s, n);
  }

  /** Dedup yields an order-preserving subsequence of its input. */
  lemma DedupIsSubsequence(s: seq<SearchResult>)
    ensures IsSubsequence(Dedup(s), s)
  {
    DedupKeepsFirsts(s, |s|);
  }

  /** Appending a result adds its position to the position set. */
  lemma PositionSetSnoc(t: seq<SearchResult>, x: SearchResult)
    ensures PositionSet(t + [x]) == PositionSet(t) + {x.position}
  {
    var u := t + [x];
    forall q | q in PositionSet(u) ensures q in PositionSet(t) + {x.position} {
      var i :| 0 <= i < |u| && u[i].position == q;
      if i < |t| {
        assert t[i].position == q;
      }
    }
    forall q | q in PositionSet(t) + {x.position} ensures q in PositionSet(u) {
      if q == x.position {
        assert u[|t|].position == q;
      } else {
        var i :| 0 <= i < |t| && t[i].position == q;
        assert u[i].position == q;
      }
    }
  }

  /** Appending a result at a new position keeps positions distinct. */
  lemma DistinctSnoc(d: seq<SearchResult>, x: SearchResult)
    requires DistinctPositions(d) && x.position !in PositionSet(d)
    ensures DistinctPositions(d + [x])
  {
    var u := d + [x];
    forall a, b | 0 <= a < b < |u| ensures u[a].position != u[b].position {
      assert u[a] == d[a];
      if b == |d| {
        assert d[a].position in PositionSet(d);
      } else {
        assert u[b] == d[b];
      }
    }
  }

  /** `findIndex` finds `s[j]` itself exactly when no earlier result has its position. */
  lemma FirstAtPositionSet(s: seq<SearchResult>, j: int)
    requires 0 <= j < |s|
    ensures FindIndex(s, s[j].position) == j <==> s[j].position !in PositionSet(s[..j])
  {
    var p := s[j].position;
    var found := FindIndex(s, p);
    var before := s[..j];
    if found != j {
      assert 0 <= found < j;
      assert before[found].position == p;
    }
  }

  lemma {:induction false} DedupPrefixPositions(s: seq<SearchResult>, n: nat)
    requires n <= |s|
    ensures DistinctPositions(DedupPrefix(s, n))
    ensures PositionSet(DedupPrefix(s, n)) == PositionSet(s[..n])
  {
    if n > 0 {
      DedupPrefixPositions(s, n - 1);
      var d := DedupPrefix(s, n - 1);
      var x := s[n - 1];
      assert s[..n] == s[..n - 1] + [x];
      PositionSetSnoc(s[..n - 1], x);
      FirstAtPositionSet(s, n - 1);
      if FindIndex(s, x.position) == n - 1 {
        assert DedupPrefix(s, n) == d + [x];
        PositionSetSnoc(d, x);
        DistinctSnoc(d, x);
      } else {
        assert DedupPrefix(s, n) == d;
        assert x.position in PositionSet(s[..n - 1]);
      }
    }
  }

  /** After dedup no two results share a position, and every input position is still present. */
  lemma DedupPositions(s: seq<SearchResult>)
    ensures DistinctPositions(Dedup(s))
    ensures PositionSet(Dedup(s)) == PositionSet(s)
  {
    DedupPrefixPositions(s, |s|);
    assert s[..|s|] == s;
  }

  /** A sequence without repeated positions passes dedup unchanged. */
  lemma {:induction false} DedupOfDistinct(t: seq<SearchResult>, n: nat)
    requires n <= |t|
    requires DistinctPositions(t)
    ensures DedupPrefix(t, n) == t[..n]
  {
    if n > 0 {
      DedupOfDistinct(t, n - 1);
      FirstAtFound(t, n - 1);
      assert IsFirstAt(t, n - 1);
      assert DedupPrefix(t, n) == t[..n - 1] + [t[n - 1]];
      assert t[..n] == t[..n - 1] + [t[n - 1]];
    }
  }

  /** Dedup is idempotent. */
  lemma DedupIdempotent(s: seq<SearchResult>)
    ensures Dedup(Dedup(s)) == Dedup(s)
  {
    var d := Dedup(s);
    DedupPositions(s);
    DedupOfDistinct(d, |d|);
    assert d[..|d|] == d;
  }

  // ---------------------------------------------------------------------------
  // Relevance filter

  const TechKeywords: seq<string> := [
    "data", "server", "cloud", "computing", "ai", "artificial intelligence",
    "machine learning", "technology", "digital", "tech", "computing",
    "facility", "campus", "center", "company", "corporation", "inc",
    "systems", "solutions", "services", "research", "development"
  ]

  /** `x || ''` for an optional string. */
  function OrEmpty(o: Option<string>): string {
    o.GetOr("")
  }

  /** `(result.poi?.name || '')`. */
  function NameOf(r: SearchResult): string {
    if r.poi.Some? then OrEmpty(r.poi.value.name) else ""
  }

  /** `(result.poi?.categorySet || []).map(cat => cat.name)`. */
  function CategoriesOf(r: SearchResult): seq<string> {
    if r.poi.Some? then r.poi.value.categories else []
  }

  /** `(result.address?.freeformAddress || '')`. */
  function AddressOf(r: SearchResult): string {
    OrEmpty(r.address)
  }

  /** `categories.some(cat => cat.toLowerCase().includes(keyword))`. */
  predicate AnyCategoryContains(cats: seq<string>, keyword: string)
    decreases |cats|
  {
    |cats| > 0 && (Contains(Lower(cats[0]), keyword) || AnyCategoryContains(cats[1..], keyword))
  }

  /** The lowered name, some lowered category or the lowered address contains `keyword`. */
  predicate Mentions(r: SearchResult, keyword: string) {
    || Contains(Lower(NameOf(r)), keyword)
    || AnyCategoryContains(CategoriesOf(r), keyword)
    || Contains(Lower(AddressOf(r)), keyword)
  }

  /** `keywords.some(keyword => Mentions(r, keyword))`. */
  predicate AnyKeyword(keywords: seq<string>, r: SearchResult)
    decreases |keywords|
  {
    |keywords| > 0 && (Mentions(r, keywords[0]) || AnyKeyword(keywords[1..], r))
  }

  predicate IsRelevant(r: SearchResult) {
    AnyKeyword(TechKeywords, r)
  }

  /** `uniqueResults.filter(isRelevant)`. */
  function Relevant(s: seq<SearchResult>): seq<SearchResult> {
    Filter(s, IsRelevant)
  }

  /** Independent statement of "a keyword occurs in the name, a category or the address". */
  ghost predicate MentionsSpec(r: SearchResult, keyword: string) {
    || (exists i :: OccursAt(Lower(NameOf(r)), keyword, i))
    || (exists c, i :: 0 <= c < |CategoriesOf(r)| && OccursAt(Lower(CategoriesOf(r)[c]), keyword, i))
    || (exists i :: OccursAt(Lower(AddressOf(r)), keyword, i))
  }

  lemma {:induction false} AnyCategoryContainsIff(cats: seq<string>, keyword: string)
    ensures AnyCategoryContains(cats, keyword) <==>
            exists c, i :: 0 <= c < |cats| && OccursAt(Lower(cats[c]), keyword, i)
    decreases |cats|
  {
    if |cats| > 0 {
      AnyCategoryContainsIff(cats[1..], keyword);
      ContainsIff(Lower(cats[0]), keyword);
      if exists c, i :: 0 <= c < |cats| && OccursAt(Lower(cats[c]), keyword, i) {
        var c, i :| 0 <= c < |cats| && OccursAt(Lower(cats[c]), keyword, i);
        if c > 0 {
          assert cats[1..][c - 1] == cats[c];
        }
      }
      if AnyCategoryContains(cats[1..], keyword) {
        var c, i :| 0 <= c < |cats[1..]| && OccursAt(Lower(cats[1..][c]), keyword, i);
        assert OccursAt(Lower(cats[c + 1]), keyword, i);
      }
    }
  }

  lemma MentionsIff(r: SearchResult, keyword: string)
    ensures Mentions(r, keyword) <==> MentionsSpec(r, keyword)
  {
    ContainsIff(Lower(NameOf(r)), keyword);
    AnyCategoryContainsIff(CategoriesOf(r), keyword);
    ContainsIff(Lower(AddressOf(r)), keyword);
  }

  lemma {:induction false} AnyKeywordIff(keywords: seq<string>, r: SearchResult)
    ensures AnyKeyword(keywords, r) <==> exists k :: 0 <= k < |keywords| && MentionsSpec(r, keywords[k])
    decreases |keywords|
  {
    if |keywords| > 0 {
      AnyKeywordIff(keywords[1..], r);
      MentionsIff(r, keywords[0]);
      if exists k :: 0 <= k < |keywords| && MentionsSpec(r, keywords[k]) {
        var k :| 0 <= k < |keywords| && MentionsSpec(r, keywords[k]);
        if k > 0 {
          assert keywords[1..][k - 1] == keywords[k];
        }
      }
      if AnyKeyword(keywords[1..], r) {
        var k :| 0 <= k < |keywords[1..]| && MentionsSpec(r, keywords[1..][k]);
        assert keywords[k + 1] == keywords[1..][k];
      }
    }
  }

  /**
   * A result is relevant exactly when some keyword of the fixed list occurs in
   * its lowered name, in one of its lowered category names or in its lowered address.
   */
  lemma IsRelevantIff(r: SearchResult)
    ensures IsRelevant(r) <==> exists k :: 0 <= k < |TechKeywords| && MentionsSpec(r, TechKeywords[k])
  {
    AnyKeywordIff(TechKeywords, r);
  }

  /** The relevance filter keeps exactly the relevant results, as an order-preserving subsequence. */
  lemma RelevantSelects(s: seq<SearchResult>)
    ensures Picks(Relevant(s), s, FilterIndices(s, IsRelevant))
    ensures forall i :: 0 <= i < |s| ==> (i in FilterIndices(s, IsRelevant) <==> IsRelevant(s[i]))
  {
    FilterPicks(s, IsRelevant);
  }

  // ---------------------------------------------------------------------------
  // Display records

  datatype Impact = HighHeat | Noise | HeatAndNoise | Emissions {
    function Label(): string {
      match this
      case HighHeat => "HIGH HEAT"
      case Noise => "NOISE"
      case HeatAndNoise => "HEAT + NOISE"
      case Emissions => "EMISSIONS"
    }
  }

  datatype FacilityKind = TechFacility | AiFacility {
    function Label(): string {
      match this
      case TechFacility => "tech-facility"
      case AiFacility => "ai-facility"
    }
  }

  datatype DataCenter = DataCenter(
    id: nat,
    name: string,
    kind: FacilityKind,
    position: Coordinate,
    operator: string,
    impact: Impact,
    description: string)

  const MaxFacilities: nat := 6

  /** Every result carries a position. */
  predicate Located(s: seq<SearchResult>) {
    forall i :: 0 <= i < |s| ==> s[i].position.Some?
  }

  /** A non-empty string: the value `||` keeps. */
  predicate Truthy(o: Option<string>) {
    o.Some? && o.value != ""
  }

  /** `result.poi?.brands?.[0]?.name`. */
  function FirstBrandName(r: SearchResult): Option<string> {
    if r.poi.Some? && |r.poi.value.brands| > 0 then r.poi.value.brands[0] else None
  }

  /** `result.poi?.name`. */
  function PoiName(r: SearchResult): Option<string> {
    if r.poi.Some? then r.poi.value.name else None
  }

  // The fallback texts of a display record.
  const DefaultNamePrefix: string := "Technology Facility "
  const DefaultOperator: string := "Technology Company"
  const DefaultPlace: string := "this location"
  const DescriptionPrefix: string := "Technology facility at "
  const DescriptionSuffix: string := " - Potential high energy consumption for computing operations"

  /** The `index`-th display record, built from `r` with the impact label that was drawn for it. */
  function Facility(r: SearchResult, index: nat, impact: Impact): DataCenter
    requires r.position.Some?
  {
    DataCenter(
      id := index + 1,
      name := if Truthy(PoiName(r)) then PoiName(r).value
              else DefaultNamePrefix + NatToString(index + 1),
      kind := TechFacility,
      position := r.position.value,
      operator := if Truthy(FirstBrandName(r)) then FirstBrandName(r).value
                  else if Truthy(PoiName(r)) then PoiName(r).value
                  else DefaultOperator,
      impact := impact,
      description := DescriptionPrefix
                     + (if Truthy(r.address) then r.address.value else DefaultPlace)
                     + DescriptionSuffix)
  }

  function Min(a: nat, b: nat): nat {
    if a <= b then a else b
  }

  /**
   * `relevantResults.slice(0, 6).map(...)`; `roll(i)` stands for the random
   * impact label drawn for the `i`-th record.
   */
  function Shape(rel: seq<SearchResult>, roll: nat -> Impact): seq<DataCenter>
    requires Located(rel)
  {
    var head := rel[..Min(|rel|, MaxFacilities)];
    seq(|head|, i requires 0 <= i < |head| => Facility(head[i], i, roll(i)))
  }

  /**
   * Shaping keeps the first (at most six) results in order, numbers them
   * 1..n, takes their positions, and applies the name, operator and
   * description fallbacks.
   */
  lemma ShapeRecords(rel: seq<SearchResult>, roll: nat -> Impact)
    requires Located(rel)
    ensures var r := Shape(rel, roll);
      && |r| <= MaxFacilities
      && |r| == (if |rel| <= MaxFacilities then |rel| else MaxFacilities)
      && forall i :: 0 <= i < |r| ==>
           && r[i].id == i + 1
           && Some(r[i].position) == rel[i].position
           && r[i].kind == TechFacility
           && r[i].impact == roll(i)
           && (Truthy(PoiName(rel[i])) ==> r[i].name == PoiName(rel[i]).value)
           && (!Truthy(PoiName(rel[i])) ==> r[i].name == DefaultNamePrefix + NatToString(i + 1))
           && (Truthy(FirstBrandName(rel[i])) ==> r[i].operator == FirstBrandName(rel[i]).value)
           && (!Truthy(FirstBrandName(rel[i])) && Truthy(PoiName(rel[i])) ==> r[i].operator == PoiName(rel[i]).value)
           && (!Truthy(FirstBrandName(rel[i])) && !Truthy(PoiName(rel[i])) ==> r[i].operator == DefaultOperator)
           && r[i].description == DescriptionPrefix
                                  + (if Truthy(rel[i].address) then rel[i].address.value else DefaultPlace)
                                  + DescriptionSuffix
  {
    var r := Shape(rel, roll);
    forall i | 0 <= i < |r| ensures r[i] == Facility(rel[i], i, roll(i)) {
    }
  }

  /** Shaping results at pairwise distinct positions gives records at pairwise distinct positions and ids. */
  lemma ShapeDistinct(rel: seq<SearchResult>, roll: nat -> Impact)
    requires Located(rel)
    requires DistinctPositions(rel)
    ensures DistinctIds(Shape(rel, roll))
    ensures DistinctFacilityPositions(Shape(rel, roll))
  {
    ShapeRecords(rel, roll);
  }

  /** Record ids are pairwise distinct. */
  ghost predicate DistinctIds(cs: seq<DataCenter>) {
    forall a, b :: 0 <= a < b < |cs| ==> cs[a].id != cs[b].id
  }

  /** Record positions are pairwise distinct. */
  ghost predicate DistinctFacilityPositions(cs: seq<DataCenter>) {
    forall a, b :: 0 <= a < b < |cs| ==> cs[a].position != cs[b].position
  }

  // ---------------------------------------------------------------------------
  // Fallback samples and the whole pipeline

  // The texts of the three fixed samples.
  const TrainingName: string := "AI Training Facility"
  const TrainingOperator: string := "AI Research Corp"
  const TrainingDescription: string := "Large-scale AI model training facility with high GPU usage"
  const LearningName: string := "Machine Learning Data Center"
  const LearningOperator: string := "ML Computing Inc"
  const LearningDescription: string := "Intensive computing for machine learning workloads"
  const CloudName: string := "Cloud AI Facility"
  const CloudOperator: string := "Cloud AI Services"
  const CloudDescription: string := "Cloud-based AI processing center with high energy consumption"

  /** The three fixed sample facilities placed around `c` when nothing relevant was found. */
  function SampleCenters(c: Coordinate): seq<DataCenter> {
    [
      DataCenter(1, TrainingName, AiFacility, Coordinate(c.lat + 5000, c.lng + 5000),
                 TrainingOperator, HighHeat, TrainingDescription),
      DataCenter(2, LearningName, AiFacility, Coordinate(c.lat - 3000, c.lng - 3000),
                 LearningOperator, HeatAndNoise, LearningDescription),
      DataCenter(3, CloudName, AiFacility, Coordinate(c.lat + 2000, c.lng - 4000),
                 CloudOperator, Emissions, CloudDescription)
    ]
  }

  /** The single sample facility published when the search itself throws. */
  function ErrorSample(c: Coordinate): seq<DataCenter> {
    [SampleCenters(c)[0]]
  }

  /**
   * How a search ends: real facilities were found, the fixed samples replace
   * an empty relevant set, or the search threw (a result without a position)
   * and the single error sample is published without touching the map.
   */
  datatype FacilityOutcome =
    | Found(centers: seq<DataCenter>)
    | Sampled(centers: seq<DataCenter>)
    | Failed(centers: seq<DataCenter>)

  lemma RelevantOfDedupLocated(all: seq<SearchResult>)
    requires Located(all)
    ensures Located(Relevant(Dedup(all)))
  {
    var d := Dedup(all);
    var rel := Relevant(d);
    forall i | 0 <= i < |rel| ensures rel[i].position.Some? {
      assert rel[i] in rel;
    }
  }

  /** Everything `fetchDataCenters` computes from the gathered results. */
  function Aggregate(all: seq<SearchResult>, center: Coordinate, roll: nat -> Impact): (out: FacilityOutcome)
    ensures out.Failed? <==> !Located(all)
  {
    if !Located(all) then Failed(ErrorSample(center))
    else
      var rel := Relevant(Dedup(all));
      RelevantOfDedupLocated(all);
      if |rel| > 0 then Found(Shape(rel, roll)) else Sampled(SampleCenters(center))
  }

  /** The relevant results of a dedup still have pairwise distinct positions. */
  lemma RelevantOfDedupDistinct(all: seq<SearchResult>)
    ensures DistinctPositions(Relevant(Dedup(all)))
  {
    var d := Dedup(all);
    DedupPositions(all);
    FilterPicks(d, IsRelevant);
    var idx := FilterIndices(d, IsRelevant);
    var rel := Relevant(d);
    forall a, b | 0 <= a < b < |rel| ensures rel[a].position != rel[b].position {
      assert rel[a] == d[idx[a]] && rel[b] == d[idx[b]];
    }
  }

  /**
   * When some relevant result survives dedup, between one and six records are
   * published, numbered 1..n, at pairwise distinct positions, each taken from a
   * relevant result of the search.
   */
  lemma AggregateFound(all: seq<SearchResult>, center: Coordinate, roll: nat -> Impact)
    requires Located(all)
    requires exists x :: x in Dedup(all) && IsRelevant(x)
    ensures var out := Aggregate(all, center, roll);
      && out.Found?
      && 1 <= |out.centers| <= MaxFacilities
      && (forall i :: 0 <= i < |out.centers| ==> out.centers[i].id == i + 1)
      && DistinctIds(out.centers)
      && DistinctFacilityPositions(out.centers)
      && forall i :: 0 <= i < |out.centers| ==>
           exists x :: x in all && IsRelevant(x) && x.position == Some(out.centers[i].position)
  {
    var d := Dedup(all);
    var rel := Relevant(d);
    var x :| x in d && IsRelevant(x);
    FilterMembers(d, IsRelevant, x);
    RelevantOfDedupLocated(all);
    RelevantOfDedupDistinct(all);
    var cs := Shape(rel, roll);
    assert Aggregate(all, center, roll) == Found(cs);
    ShapeRecords(rel, roll);
    ShapeDistinct(rel, roll);
    ShapedFromRelevant(all, roll);
  }

  /** Every shaped record sits at the position of a relevant result of the search. */
  lemma ShapedFromRelevant(all: seq<SearchResult>, roll: nat -> Impact)
    requires Located(all)
    ensures Located(Relevant(Dedup(all)))
    ensures var cs := Shape(Relevant(Dedup(all)), roll);
      forall i :: 0 <= i < |cs| ==>
        exists x :: x in all && IsRelevant(x) && x.position == Some(cs[i].position)
  {
    RelevantOfDedupLocated(all);
    var rel := Relevant(Dedup(all));
    var cs := Shape(rel, roll);
    assert forall y :: y in rel ==> y in all && IsRelevant(y);
    forall i | 0 <= i < |cs|
      ensures exists x :: x in all && IsRelevant(x) && x.position == Some(cs[i].position)
    {
      ShapePosition(rel, roll, i);
      assert rel[i] in rel;
    }
  }

  /** The `i`-th shaped record sits at the position of the `i`-th result. */
  lemma ShapePosition(rel: seq<SearchResult>, roll: nat -> Impact, i: int)
    requires Located(rel)
    requires 0 <= i < |Shape(rel, roll)|
    ensures i < |rel| && rel[i].position == Some(Shape(rel, roll)[i].position)
  {
    assert Shape(rel, roll)[i] == Facility(rel[i], i, roll(i));
  }

  /**
   * When no result that survives dedup is relevant, exactly the three samples
   * (ids 1, 2, 3) are published, not an empty list.
   */
  lemma AggregateSampled(all: seq<SearchResult>, center: Coordinate, roll: nat -> Impact)
    requires Located(all)
    requires forall x :: x in Dedup(all) ==> !IsRelevant(x)
    ensures var out := Aggregate(all, center, roll);
      && out == Sampled(SampleCenters(center))
      && |out.centers| == 3
      && out.centers[0].id == 1 && out.centers[1].id == 2 && out.centers[2].id == 3
  {
    var d := Dedup(all);
    forall i | 0 <= i < |d| ensures !IsRelevant(d[i]) {
      assert d[i] in d;
    }
    FilterNone(d, IsRelevant);
  }

  /**
   * A search whose every term contributes nothing (failed requests, HTTP
   * errors, empty answers) publishes the three samples; it never ends empty.
   */
  lemma AllFailedPublishesSamples(fetch: string -> TermResponse, center: Coordinate, roll: nat -> Impact)
    requires forall t :: t in SearchTerms ==> Contribution(fetch(t)) == []
    ensures Aggregate(Gathered(SearchTerms, fetch), center, roll) == Sampled(SampleCenters(center))
  {
    AllFailedGathersNothing(SearchTerms, fetch);
  }

  /** The published list is never empty. */
  lemma AggregateNonEmpty(all: seq<SearchResult>, center: Coordinate, roll: nat -> Impact)
    ensures 1 <= |Aggregate(all, center, roll).centers| <= MaxFacilities
  {
    if Located(all) {
      var rel := Relevant(Dedup(all));
      RelevantOfDedupLocated(all);
      if |rel| > 0 {
        ShapeRecords(rel, roll);
      }
    }
  }

  /** The overlay markers drawn for a list of facilities, one per record, in order. */
  function FacilityFeatures(cs: seq<DataCenter>): (fs: seq<Feature>)
    ensures |fs| == |cs|
    ensures forall i :: 0 <= i < |cs| ==> CoordinateOf(fs[i].point) == cs[i].position
  {
    seq(|cs|, i requires 0 <= i < |cs| =>
      Feature(PointOf(cs[i].position),
              FacilityProps(cs[i].name, cs[i].operator, cs[i].kind.Label(), cs[i].impact.Label())))
  }
}
