/** The map-type button: it cycles the map through five styles. */
module MapStyles {
  import opened Seqs

  const Styles: seq<string> := ["road", "satellite", "satellite_road_labels", "grayscale_light", "night"]

  /** `s.indexOf(x)`: the first index holding `x`, or -1. */
  function IndexOf(s: seq<string>, x: string): (r: int)
    ensures -1 <= r < |s|
    ensures r >= 0 ==> s[r] == x && forall j :: 0 <= j < r ==> s[j] != x
    ensures r == -1 ==> forall j :: 0 <= j < |s| ==> s[j] != x
  {
    if s == [] then -1
    else if s[0] == x then 0
    else
      var k := IndexOf(s[1..], x);
      if k == -1 then -1 else k + 1
  }

  /** `s[(s.indexOf(current) + 1) % s.length]`: the entry after `current`, cyclically. */
  function NextIn(s: seq<string>, current: string): (next: string)
    requires |s| > 0
    ensures next in s
  {
    s[(IndexOf(s, current) + 1) % |s|]
  }

  /** The next map style, as the button picks it. */
  function NextStyle(current: string): (next: string)
    ensures next in Styles
  {
    NextIn(Styles, current)
  }

  /** The five styles are pairwise different. */
  lemma StylesDistinct()
    ensures NoDuplicates(Styles)
  {
  }

  /** A style the list does not know (index -1) is followed by "road". */
  lemma NextOfUnknown(current: string)
    requires current !in Styles
    ensures NextStyle(current) == "road"
  {
  }

  /** The index one place after `j` in a cycle of `n` entries. */
  function Succ(n: nat, j: int): int {
    if j + 1 < n then j + 1 else 0
  }

  /** `(j + 1) % n` is that index. */
  lemma ModNext(j: int, n: int)
    requires 0 <= j < n
    ensures (j + 1) % n == Succ(n, j)
  {
    if j + 1 == n {
      assert (j + 1) % n == n % n == 0;
    }
  }

  /** In a list without repeats, each entry is followed by the next one, the last by the first. */
  lemma NextInKnown(s: seq<string>, i: int)
    requires NoDuplicates(s) && 0 <= i < |s|
    ensures NextIn(s, s[i]) == s[Succ(|s|, i)]
  {
    var r := IndexOf(s, s[i]);
    assert r != -1 by {
      assert s[i] == s[i];
    }
    assert r == i;
    ModNext(i, |s|);
  }

  /** Each known style is followed by the next one in the list, the last by the first. */
  lemma NextOfKnown(i: int)
    requires 0 <= i < |Styles|
    ensures NextStyle(Styles[i]) == Styles[if i + 1 < |Styles| then i + 1 else 0]
  {
    StylesDistinct();
    NextInKnown(Styles, i);
  }

  /** The entry reached from `current` after `k` steps through `s`. */
  function AfterStepsIn(s: seq<string>, current: string, k: nat): string
    requires |s| > 0
  {
    if k == 0 then current else NextIn(s, AfterStepsIn(s, current, k - 1))
  }

  /** The style after `k` presses of the button. */
  function AfterChanges(current: string, k: nat): string {
    AfterStepsIn(Styles, current, k)
  }

  /** The index reached from index `i` after `k` steps around a cycle of `n` entries. */
  function Advance(n: nat, i: int, k: nat): int {
    if k == 0 then i else Succ(n, Advance(n, i, k - 1))
  }

  /** Within one round, `k` steps from `i` land on `i + k`, wrapped once. */
  lemma {:induction false} AdvanceWithinRound(n: nat, i: int, k: nat)
    requires 0 <= i < n && k <= n
    ensures Advance(n, i, k) == if i + k < n then i + k else i + k - n
  {
    if k > 0 {
      AdvanceWithinRound(n, i, k - 1);
    }
  }

  lemma {:induction false} AfterStepsInKnown(s: seq<string>, i: int, k: nat)
    requires NoDuplicates(s) && 0 <= i < |s|
    ensures 0 <= Advance(|s|, i, k) < |s|
    ensures AfterStepsIn(s, s[i], k) == s[Advance(|s|, i, k)]
  {
    if k > 0 {
      AfterStepsInKnown(s, i, k - 1);
      NextInKnown(s, Advance(|s|, i, k - 1));
    }
  }

  /** In a list without repeats, `|s|` steps return to the start and fewer never do. */
  lemma CycleReturns(s: seq<string>, current: string, k: nat)
    requires NoDuplicates(s) && current in s
    ensures AfterStepsIn(s, current, |s|) == current
    ensures 0 < k < |s| ==> AfterStepsIn(s, current, k) != current
  {
    var i := IndexOf(s, current);
    AfterStepsInKnown(s, i, |s|);
    AdvanceWithinRound(|s|, i, |s|);
    if 0 < k < |s| {
      AfterStepsInKnown(s, i, k);
      AdvanceWithinRound(|s|, i, k);
    }
  }

  /** k presses move a listed style k places along the cycle. */
  lemma AfterChangesOfKnown(i: int, k: nat)
    requires 0 <= i < |Styles|
    ensures 0 <= Advance(|Styles|, i, k) < |Styles|
    ensures AfterChanges(Styles[i], k) == Styles[Advance(|Styles|, i, k)]
  {
    StylesDistinct();
    AfterStepsInKnown(Styles, i, k);
  }

  /**
   * Starting from a known style, five presses return to it and fewer than five
   * never do: the cycle has period exactly five.
   */
  lemma FiveChangesReturn(current: string, k: nat)
    requires current in Styles
    ensures AfterChanges(current, |Styles|) == current
    ensures 0 < k < |Styles| ==> AfterChanges(current, k) != current
  {
    StylesDistinct();
    CycleReturns(Styles, current, k);
  }

  /**
   * The value the handler passes to `indexOf`. The map library reports its
   * current style as a style-options object whose `style` member names the
   * style, not as the style's name itself.
   */
  datatype JsValue = JsString(text: string) | JsStyleOptions(style: string)

  /** `s.indexOf(v)` under strict equality: only a string can equal a list entry. */
  function IndexOfValue(s: seq<string>, v: JsValue): (r: int)
    ensures -1 <= r < |s|
    ensures r >= 0 ==> JsString(s[r]) == v
    ensures r == -1 ==> forall j :: 0 <= j < |s| ==> JsString(s[j]) != v
  {
    if v.JsString? then IndexOf(s, v.text) else -1
  }

  /** The button's handler as written: the index of the whole style object in the list. */
  function NextStyleAsWritten(current: JsValue): (next: string)
    ensures next in Styles
  {
    Styles[(IndexOfValue(Styles, current) + 1) % |Styles|]
  }

  /**
   * As written, the handler never finds the current style, so every press
   * asks for "road": from "road" the button changes nothing, where the
   * intended cycle moves on to "satellite".
   */
  lemma AsWrittenAlwaysRoad(current: string)
    ensures NextStyleAsWritten(JsStyleOptions(current)) == "road"
    ensures NextStyleAsWritten(JsStyleOptions("road")) != NextStyle("road")
  {
    NextOfKnown(0);
  }

  /** Looking up the options' `style` member instead gives the intended cycle. */
  lemma StyleMemberGivesCycle(current: string)
    ensures NextStyleAsWritten(JsString(current)) == NextStyle(current)
  {
  }
}
