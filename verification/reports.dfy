/**
 * Incident reports and the report form: the issue categories, the checkbox
 * toggle over the selected issue keys, and the search over submitted reports.
 */
module Reports {
  import opened Wrappers
  import opened Seqs
  import opened Text

  /** An issue category; `name` is the category's display label. */
  datatype IssueOption = IssueOption(key: string, name: string)

  /** The issue categories a report can carry (icons and colours are presentation only). */
  const IssueOptions: seq<IssueOption> := [
    IssueOption("noise", "Noise Pollution"),
    IssueOption("heat", "Heat Island"),
    IssueOption("truck-traffic", "Truck Traffic"),
    IssueOption("odor", "Odor"),
    IssueOption("water", "Water Quality"),
    IssueOption("light", "Light Pollution"),
    IssueOption("air-quality", "Air Quality"),
    IssueOption("waste", "Waste/Dumping"),
    IssueOption("construction", "Construction"),
    IssueOption("chemical", "Chemical Spill"),
    IssueOption("wildlife", "Wildlife Disturbance"),
    IssueOption("vegetation", "Vegetation Damage")
  ]

  /** `options.find(opt => opt.key === key)`: the first option with that key, if any. */
  function FindOption(options: seq<IssueOption>, key: string): (r: Option<IssueOption>)
    ensures r.None? ==> forall i :: 0 <= i < |options| ==> options[i].key != key
    ensures r.Some? ==> r.value.key == key
  {
    if options == [] then None
    else if options[0].key == key then Some(options[0])
    else
      var r := FindOption(options[1..], key);
      assert forall i :: 0 < i < |options| ==> options[1..][i - 1] == options[i];
      r
  }

  /** The option found is one of the options. */
  lemma {:induction false} FindOptionIn(options: seq<IssueOption>, key: string)
    ensures FindOption(options, key).Some? ==> FindOption(options, key).value in options
    decreases |options|
  {
    if options != [] && options[0].key != key {
      FindOptionIn(options[1..], key);
    }
  }

  /** `ISSUE_OPTIONS.find(opt => opt.key === key)?.label`. */
  function LabelOf(key: string): Option<string> {
    var opt := FindOption(IssueOptions, key);
    if opt.Some? then Some(opt.value.name) else None
  }

  /** A key has a label exactly when some issue category has that key, and the label is that category's name. */
  lemma LabelOfOption(key: string)
    ensures LabelOf(key).None? <==> forall o :: o in IssueOptions ==> o.key != key
    ensures LabelOf(key).Some? ==> IssueOption(key, LabelOf(key).value) in IssueOptions
  {
    var opt := FindOption(IssueOptions, key);
    FindOptionIn(IssueOptions, key);
    if opt.None? {
      forall o | o in IssueOptions ensures o.key != key {
        var i :| 0 <= i < |IssueOptions| && IssueOptions[i] == o;
      }
    }
  }

  /** A submitted report: where, which issues, the notes and when (an ISO timestamp). */
  datatype Report = Report(lat: int, lng: int, issues: seq<string>, notes: string, timestamp: string)

  // ---------------------------------------------------------------------------
  // Toggling an issue key

  /** `prev.filter(x => x !== key)`. */
  function Without(prev: seq<string>, key: string): seq<string> {
    Filter(prev, x => x != key)
  }

  /** `prev.includes(key) ? prev.filter(x => x !== key) : [...prev, key]`. */
  function Toggle(prev: seq<string>, key: string): seq<string> {
    if key in prev then Without(prev, key) else prev + [key]
  }

  /** Toggling flips the membership of `key` and leaves every other key's membership alone. */
  lemma ToggleMembership(prev: seq<string>, key: string, x: string)
    ensures x in Toggle(prev, key) <==> (if x == key then key !in prev else x in prev)
  {
    FilterMembers(prev, y => y != key, x);
  }

  lemma {:induction false} WithoutMultiset(prev: seq<string>, key: string)
    ensures multiset(Without(prev, key)) == multiset(prev)[key := 0]
    decreases |prev|
  {
    if prev != [] {
      var init, last := prev[..|prev| - 1], prev[|prev| - 1];
      WithoutMultiset(init, key);
      assert prev == init + [last];
      assert Without(prev, key) == Without(init, key) + (if last != key then [last] else []);
    }
  }

  /**
   * Toggling a present key removes every occurrence of it, keeps the other
   * keys in their order, and changes the count of no other key.
   */
  lemma TogglePresent(prev: seq<string>, key: string)
    requires key in prev
    ensures key !in Toggle(prev, key)
    ensures IsSubsequence(Toggle(prev, key), prev)
    ensures multiset(Toggle(prev, key)) == multiset(prev)[key := 0]
  {
    ToggleMembership(prev, key, key);
    FilterIsSubsequence(prev, x => x != key);
    WithoutMultiset(prev, key);
  }

  /** Toggling an absent key appends it at the end. */
  lemma ToggleAbsent(prev: seq<string>, key: string)
    requires key !in prev
    ensures Toggle(prev, key) == prev + [key]
    ensures |Toggle(prev, key)| == |prev| + 1 && Toggle(prev, key)[|prev|] == key
  {
  }

  /** Toggling an absent key twice restores the original list. */
  lemma ToggleTwiceRestores(prev: seq<string>, key: string)
    requires key !in prev
    ensures Toggle(Toggle(prev, key), key) == prev
  {
    var once := prev + [key];
    assert key in once;
    FilterSnoc(prev, key, x => x != key);
    FilterAll(prev, x => x != key);
  }

  /** The selected issue keys never hold a key twice. */
  lemma ToggleKeepsNoDuplicates(prev: seq<string>, key: string)
    requires NoDuplicates(prev)
    ensures NoDuplicates(Toggle(prev, key))
  {
    if key in prev {
      FilterPicks(prev, x => x != key);
      var r := Toggle(prev, key);
      var idx := FilterIndices(prev, x => x != key);
      forall a, b | 0 <= a < b < |r| ensures r[a] != r[b] {
        assert r[a] == prev[idx[a]] && r[b] == prev[idx[b]];
      }
    }
  }

  // ---------------------------------------------------------------------------
  // Searching the reports

  /** The label of issue `key` exists and, lowered, contains `term`. */
  predicate LabelContains(key: string, term: string) {
    var found := LabelOf(key);
    found.Some? && Contains(Lower(found.value), term)
  }

  /** `issues.some(issue => LabelOf(issue)?.toLowerCase().includes(term))`. */
  predicate AnyIssueLabelContains(issues: seq<string>, term: string)
    decreases |issues|
  {
    |issues| > 0 && (LabelContains(issues[0], term) || AnyIssueLabelContains(issues[1..], term))
  }

  /** A report matches when an issue's label or its (non-empty) notes contain the lowered term. */
  predicate MatchesSearch(inc: Report, term: string) {
    || AnyIssueLabelContains(inc.issues, Lower(term))
    || (inc.notes != "" && Contains(Lower(inc.notes), Lower(term)))
  }

  /** The search effect: a blank term shows every report; otherwise the matching ones, in order. */
  function SearchIncidents(incidents: seq<Report>, term: string): (r: seq<Report>)
    ensures |r| <= |incidents|
    ensures forall x :: x in r ==> x in incidents
  {
    if Trim(term) == "" then incidents
    else Filter(incidents, inc => MatchesSearch(inc, term))
  }

  /** A blank or whitespace-only term returns all the reports, unchanged. */
  lemma SearchBlankReturnsAll(incidents: seq<Report>, term: string)
    requires AllWhitespace(term)
    ensures SearchIncidents(incidents, term) == incidents
  {
    TrimEmptyIff(term);
  }

  /**
   * A term with a non-whitespace character keeps exactly the matching
   * reports, as an order-preserving subsequence: every matching position is
   * kept (so a report that appears twice is kept twice) and no other.
   */
  lemma SearchSelects(incidents: seq<Report>, term: string)
    requires !AllWhitespace(term)
    ensures IsSubsequence(SearchIncidents(incidents, term), incidents)
    ensures forall x :: x in SearchIncidents(incidents, term) <==> x in incidents && MatchesSearch(x, term)
    ensures exists idx ::
      && Picks(SearchIncidents(incidents, term), incidents, idx)
      && forall i :: 0 <= i < |incidents| ==> (i in idx <==> MatchesSearch(incidents[i], term))
  {
    TrimEmptyIff(term);
    var p := inc => MatchesSearch(inc, term);
    FilterPicks(incidents, p);
    var idx := FilterIndices(incidents, p);
    assert Picks(SearchIncidents(incidents, term), incidents, idx);
    FilterIsSubsequence(incidents, p);
    forall x ensures x in Filter(incidents, p) <==> x in incidents && MatchesSearch(x, term) {
      FilterMembers(incidents, p, x);
    }
  }

  /** A report whose issue `key` has a label containing the lowered term is found. */
  lemma SearchFindsByLabel(incidents: seq<Report>, term: string, k: int, j: int)
    requires !AllWhitespace(term)
    requires 0 <= k < |incidents| && 0 <= j < |incidents[k].issues|
    requires LabelContains(incidents[k].issues[j], Lower(term))
    ensures incidents[k] in SearchIncidents(incidents, term)
  {
    LabelFound(incidents[k].issues, Lower(term), j);
    SearchSelects(incidents, term);
  }

  lemma {:induction false} LabelFound(issues: seq<string>, term: string, j: int)
    requires 0 <= j < |issues|
    requires LabelContains(issues[j], term)
    ensures AnyIssueLabelContains(issues, term)
    decreases j
  {
    if j > 0 {
      assert issues[1..][j - 1] == issues[j];
      LabelFound(issues[1..], term, j - 1);
    }
  }

  /** Some issue's label contains `term` exactly when the scan over the issues says so. */
  lemma {:induction false} AnyIssueLabelContainsIff(issues: seq<string>, term: string)
    ensures AnyIssueLabelContains(issues, term) <==> exists j :: 0 <= j < |issues| && LabelContains(issues[j], term)
    decreases |issues|
  {
    if exists j :: 0 <= j < |issues| && LabelContains(issues[j], term) {
      var j :| 0 <= j < |issues| && LabelContains(issues[j], term);
      LabelFound(issues, term, j);
    }
    if AnyIssueLabelContains(issues, term) && !LabelContains(issues[0], term) {
      AnyIssueLabelContainsIff(issues[1..], term);
      var j :| 0 <= j < |issues[1..]| && LabelContains(issues[1..][j], term);
      assert LabelContains(issues[j + 1], term);
    }
  }
}
