/** The list logic of the multi-select control: the search filter over the
    options and the toggle/remove operations on the selected values. */
module MultiSelect {

  /** An option `{value, label}`; `label` is a Dafny keyword, hence `caption`. */
  datatype Choice = Choice(value: string, caption: string)

  /** `a` can be obtained from `b` by deleting elements. */
  predicate IsSubsequence<T(==)>(a: seq<T>, b: seq<T>)
    decreases |b|
  {
    |a| == 0 ||
    (|b| > 0 && ((a[0] == b[0] && IsSubsequence(a[1..], b[1..])) || IsSubsequence(a, b[1..])))
  }

  /** `Array.prototype.filter`: keeps, in order, exactly the elements that
      pass, each as often as it occurs. */
  function Filter<T(==,!new)>(xs: seq<T>, keep: T -> bool): (r: seq<T>)
    ensures forall i :: 0 <= i < |r| ==> keep(r[i])
    ensures forall x :: multiset(r)[x] == if keep(x) then multiset(xs)[x] else 0
    ensures IsSubsequence(r, xs)
    decreases |xs|
  {
    if |xs| == 0 then []
    else
      var rest := Filter(xs[1..], keep);
      assert xs == [xs[0]] + xs[1..];
      if keep(xs[0]) then
        var r := [xs[0]] + rest;
        assert r[1..] == rest;
        r
      else rest
  }

  /** Filtering with a test every element passes changes nothing. */
  lemma {:induction false} FilterKeepsAll<T(!new)>(xs: seq<T>, keep: T -> bool)
    requires forall i :: 0 <= i < |xs| ==> keep(xs[i])
    ensures Filter(xs, keep) == xs
    decreases |xs|
  {
    if |xs| > 0 {
      FilterKeepsAll(xs[1..], keep);
      assert xs == [xs[0]] + xs[1..];
    }
  }

  /** Filtering distributes over concatenation. */
  lemma {:induction false} FilterAppend<T(!new)>(xs: seq<T>, ys: seq<T>, keep: T -> bool)
    ensures Filter(xs + ys, keep) == Filter(xs, keep) + Filter(ys, keep)
    decreases |xs|
  {
    if |xs| == 0 {
      assert xs + ys == ys;
    } else {
      assert (xs + ys)[1..] == xs[1..] + ys;
      assert (xs + ys)[0] == xs[0];
      FilterAppend(xs[1..], ys, keep);
    }
  }

  /** `removeSelected`: `selectedValues.filter((item) => item !== value)`. */
  function RemoveSelected(selected: seq<string>, v: string): (r: seq<string>)
    ensures v !in r
    ensures forall x :: x != v ==> multiset(r)[x] == multiset(selected)[x]
    ensures IsSubsequence(r, selected)
  {
    var r := Filter(selected, (item: string) => item != v);
    assert multiset(r)[v] == 0;
    r
  }

  /** `toggleSelection`: drop every occurrence of a selected value, append
      an unselected one at the end. */
  function ToggleSelection(selected: seq<string>, v: string): (r: seq<string>)
    ensures v in selected ==> v !in r && IsSubsequence(r, selected)
    ensures v in selected ==> forall x :: x != v ==> multiset(r)[x] == multiset(selected)[x]
    ensures v !in selected ==> r == selected + [v]
  {
    if v in selected then RemoveSelected(selected, v) else selected + [v]
  }

  /** Removing a value that is not selected leaves the selection as it was. */
  lemma RemoveAbsentIsNoOp(selected: seq<string>, v: string)
    requires v !in selected
    ensures RemoveSelected(selected, v) == selected
  {
    FilterKeepsAll(selected, (item: string) => item != v);
  }

  /** Removing the same value twice is the same as once. */
  lemma RemoveIdempotent(selected: seq<string>, v: string)
    ensures RemoveSelected(RemoveSelected(selected, v), v) == RemoveSelected(selected, v)
  {
    RemoveAbsentIsNoOp(RemoveSelected(selected, v), v);
  }

  /** Toggling an unselected value on and off again restores the selection. */
  lemma ToggleTwiceRestoresAbsent(selected: seq<string>, v: string)
    requires v !in selected
    ensures ToggleSelection(ToggleSelection(selected, v), v) == selected
  {
    var keep := (item: string) => item != v;
    FilterAppend(selected, [v], keep);
    FilterKeepsAll(selected, keep);
    assert Filter([v], keep) == [];
    assert selected + [] == selected;
  }

  /** Toggling a selected value off and on again moves it to the end: the
      same values, each as often (on a selection without duplicates), but
      the original order only when it was last already. */
  lemma ToggleTwiceMovesPresentToEnd(selected: seq<string>, v: string)
    requires v in selected
    requires multiset(selected)[v] == 1
    ensures ToggleSelection(ToggleSelection(selected, v), v) == RemoveSelected(selected, v) + [v]
    ensures multiset(ToggleSelection(ToggleSelection(selected, v), v)) == multiset(selected)
  {
  }

  /** So the round trip is not the identity in general. */
  lemma ToggleTwiceReorders()
    ensures ToggleSelection(ToggleSelection(["a", "b"], "a"), "a") == ["b", "a"]
  {
  }

  /** ASCII `toLowerCase` of one character. */
  function LowerChar(c: char): (d: char)
    ensures 'A' <= c <= 'Z' ==> d as int == c as int + 32
    ensures !('A' <= c <= 'Z') ==> d == c
  {
    if 'A' <= c <= 'Z' then (c as int + 32) as char else c
  }

  /** ASCII `toLowerCase`. */
  function Lower(s: string): (r: string)
    ensures |r| == |s|
    ensures forall i :: 0 <= i < |s| ==> r[i] == LowerChar(s[i])
  {
    seq(|s|, i requires 0 <= i < |s| => LowerChar(s[i]))
  }

  /** `needle` occurs in `hay` starting at index `i`. */
  predicate OccursAt(hay: string, needle: string, i: int)
  {
    0 <= i && i + |needle| <= |hay| && hay[i..i + |needle|] == needle
  }

  /** Occurrences past the first position are occurrences in the tail. */
  lemma ShiftOccurrence(hay: string, needle: string, i: int)
    requires |hay| > 0 && 1 <= i
    ensures OccursAt(hay, needle, i) <==> OccursAt(hay[1..], needle, i - 1)
  {
  }

  /** `String.prototype.includes`, by trying each starting position. */
  function Includes(hay: string, needle: string): (found: bool)
    ensures found <==> exists i :: OccursAt(hay, needle, i)
    decreases |hay|
  {
    if |needle| > |hay| then
      assert forall i :: !OccursAt(hay, needle, i);
      false
    else if hay[..|needle|] == needle then
      assert OccursAt(hay, needle, 0);
      true
    else
      var rest := Includes(hay[1..], needle);
      assert forall i :: 1 <= i ==> (OccursAt(hay, needle, i) <==> OccursAt(hay[1..], needle, i - 1)) by {
        forall i | 1 <= i
          ensures OccursAt(hay, needle, i) <==> OccursAt(hay[1..], needle, i - 1)
        {
          ShiftOccurrence(hay, needle, i);
        }
      }
      assert !OccursAt(hay, needle, 0);
      if rest then
        var j :| OccursAt(hay[1..], needle, j);
        assert OccursAt(hay, needle, j + 1);
        true
      else
        forall i
          ensures !OccursAt(hay, needle, i)
        {
          if 1 <= i {
            assert !OccursAt(hay[1..], needle, i - 1);
          }
        }
        false
  }

  /** Whether an option survives the search box's contents. */
  predicate Matches(o: Choice, input: string)
  {
    Includes(Lower(o.caption), Lower(input))
  }

  /** `filteredOptions`: the options whose lower-cased label contains the
      lower-cased input, in their original order. */
  function FilteredOptions(options: seq<Choice>, input: string): (r: seq<Choice>)
    ensures IsSubsequence(r, options)
    ensures forall i :: 0 <= i < |r| ==> Matches(r[i], input)
    ensures forall o :: o in options && Matches(o, input) ==> o in r
    // each matching option is kept as often as it occurs
    ensures forall o :: multiset(r)[o] == if Matches(o, input) then multiset(options)[o] else 0
  {
    var r := Filter(options, (o: Choice) => Matches(o, input));
    assert forall o :: o in options && Matches(o, input) ==> o in r by {
      forall o | o in options && Matches(o, input)
        ensures o in r
      {
        assert multiset(options)[o] > 0;
        assert multiset(r)[o] > 0;
      }
    }
    r
  }

  /** An empty search keeps every option. */
  lemma EmptySearchKeepsAll(options: seq<Choice>)
    ensures FilteredOptions(options, "") == options
  {
    forall i | 0 <= i < |options|
      ensures Matches(options[i], "")
    {
      assert OccursAt(Lower(options[i].caption), "", 0);
    }
    FilterKeepsAll(options, (o: Choice) => Matches(o, ""));
  }

  /** The search ignores ASCII case: "PARTY" finds the label "Party". */
  lemma SearchIgnoresCase()
    ensures FilteredOptions([Choice("p", "Party")], "PARTY") == [Choice("p", "Party")]
  {
    assert Lower("Party") == "party";
    assert Lower("PARTY") == "party";
    assert OccursAt("party", "party", 0);
    FilterKeepsAll([Choice("p", "Party")], (o: Choice) => Matches(o, "PARTY"));
  }
}
