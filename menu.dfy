/** The menu's board-size picker. It steps cyclically through the row (A1) and
    column (A2) options, stops only at a value that makes a valid product with
    the other axis's current value, and then refilters the other axis's
    options. The two text fields are modelled by the integers they display. */
module MenuSelection {
  import opened SettingsHolder

  /** The inspector defaults of both option arrays. */
  const DefaultOptions: seq<int> := [2, 3, 4, 5, 6, 7, 8, 9]

  /** A board of `a` × `b` cells is offered when it has at most 30 cells and
      an even number of them. (For an odd negative product C#'s `%` gives -1
      and Dafny's gives 1; both differ from 0, so the test agrees.) */
  predicate IsValidProduct(a: int, b: int)
  {
    var product := a * b;
    product <= 30 && product % 2 == 0
  }

  /** A product is valid exactly when it is at most 30 and one factor is even. */
  lemma {:induction false} ValidProductParity(a: int, b: int)
    ensures IsValidProduct(a, b) <==> a * b <= 30 && (a % 2 == 0 || b % 2 == 0)
  {
    var qa, ra := a / 2, a % 2;
    var qb, rb := b / 2, b % 2;
    assert a * b == 2 * (2 * qa * qb + qa * rb + ra * qb) + ra * rb;
    assert ra * rb == if ra == 1 && rb == 1 then 1 else 0;
  }

  /** The product test does not depend on the order of the factors. */
  lemma ValidProductSymmetric(a: int, b: int)
    ensures IsValidProduct(a, b) == IsValidProduct(b, a)
  {
  }

  /** The options of `opts` that make a valid product with `other`, in order. */
  function Compatible(opts: seq<int>, other: int): (r: seq<int>)
    ensures |r| <= |opts|
    ensures forall x :: x in r <==> x in opts && IsValidProduct(x, other)
  {
    if opts == [] then []
    else
      var init, last := opts[..|opts| - 1], opts[|opts| - 1];
      assert opts == init + [last];
      Compatible(init, other) + (if IsValidProduct(last, other) then [last] else [])
  }

  /** `List.IndexOf`: the first position holding `x`, or -1 when there is none. */
  function IndexOf(s: seq<int>, x: int): (r: int)
    ensures -1 <= r < |s|
    ensures r == -1 <==> x !in s
    ensures 0 <= r ==> s[r] == x && forall j :: 0 <= j < r ==> s[j] != x
  {
    if s == [] then -1
    else if s[0] == x then 0
    else
      var t := IndexOf(s[1..], x);
      if t == -1 then -1 else t + 1
  }

  /** Position `j` is passed over when moving forward, with wrap-around, from
      `from` to `to` (a full lap when `from == to`). */
  predicate PassedForward(from: int, j: int, to: int)
  {
    if from < to then from < j < to
    else if to < from then from < j || j < to
    else j != from
  }

  /** The index after `i` in a cyclic list of `n` entries. */
  function CyclicNext(i: int, n: int): (r: int)
  {
    if i + 1 == n then 0 else i + 1
  }

  /** The index before `i` in a cyclic list of `n` entries. */
  function CyclicPrevious(i: int, n: int): (r: int)
  {
    if i == 0 then n - 1 else i - 1
  }

  /** `CyclicNext` and `CyclicPrevious` are the source's `(i + 1) % n` and
      `(i - 1 + n) % n` on an index in range. */
  lemma CyclicStepsAreModular(i: int, n: int)
    requires 0 <= i < n
    ensures CyclicNext(i, n) == (i + 1) % n
    ensures CyclicPrevious(i, n) == (i - 1 + n) % n
  {
  }

  class MenuManager {
    const a1: seq<int>
    const a2: seq<int>
    var validA1Selections: seq<int>
    var validA2Selections: seq<int>
    var currentA1Index: int
    var currentA2Index: int
    /** The value shown by `A1Text`. */
    var a1Text: int
    /** The value shown by `A2Text`. */
    var a2Text: int
    var rows: int
    var cols: int

    /** The A1 index points into its option list, the text shows the selected
        option, and every option comes from `a1`. */
    ghost predicate ValidA1()
      reads this
    {
      && 0 <= currentA1Index < |validA1Selections|
      && a1Text == validA1Selections[currentA1Index]
      && forall x :: x in validA1Selections ==> x in a1
    }

    ghost predicate ValidA2()
      reads this
    {
      && 0 <= currentA2Index < |validA2Selections|
      && a2Text == validA2Selections[currentA2Index]
      && forall x :: x in validA2Selections ==> x in a2
    }

    ghost predicate Valid()
      reads this
    {
      ValidA1() && ValidA2()
    }

    /** The displayed rows × cols board is one the menu accepts. */
    ghost predicate SelectionValid()
      reads this
    {
      IsValidProduct(a1Text, a2Text)
    }

    /** Field initialisers and `Start`: both lists take all options and the
        first of each is shown. Showing an empty list would fail. */
    constructor (options1: seq<int>, options2: seq<int>)
      requires |options1| > 0 && |options2| > 0
      ensures Valid()
      ensures a1 == options1 && a2 == options2
      ensures validA1Selections == options1 && validA2Selections == options2
      ensures currentA1Index == 0 && currentA2Index == 0
      ensures a1Text == options1[0] && a2Text == options2[0]
      ensures rows == 0 && cols == 0
    {
      a1, a2 := options1, options2;
      validA1Selections, validA2Selections := options1, options2;
      currentA1Index, currentA2Index := 0, 0;
      rows, cols := 0, 0;
      a1Text := options1[0];
      a2Text := options2[0];
    }

    /** Moves A1 forward to the next option forming a valid product with the
        shown A2, then refilters the A2 options against the new A1. */
    method IncrementA1()
      requires Valid()
      requires exists j :: 0 <= j < |validA1Selections| && IsValidProduct(validA1Selections[j], a2Text)
      modifies this`currentA1Index, this`a1Text, this`validA2Selections, this`currentA2Index, this`a2Text
      ensures Valid() && SelectionValid()
      ensures a2Text == old(a2Text)
      ensures forall j :: 0 <= j < |validA1Selections| && PassedForward(old(currentA1Index), j, currentA1Index)
                ==> !IsValidProduct(validA1Selections[j], a2Text)
      ensures validA2Selections == Compatible(a2, a1Text)
      ensures currentA2Index == IndexOf(validA2Selections, a2Text)
    {
      var n := |validA1Selections|;
      ghost var start := currentA1Index;
      ghost var target :| 0 <= target < n && IsValidProduct(validA1Selections[target], a2Text);
      currentA1Index := CyclicNext(currentA1Index, n);
      while !IsValidProduct(validA1Selections[currentA1Index], a2Text)
        invariant 0 <= currentA1Index < n
        invariant a2Text == old(a2Text) && ValidA2()
        invariant forall j :: 0 <= j < n && PassedForward(start, j, currentA1Index)
                    ==> !IsValidProduct(validA1Selections[j], a2Text)
        decreases if currentA1Index <= target then target - currentA1Index else target - currentA1Index + n
      {
          currentA1Index := CyclicNext(currentA1Index, n);
      }
      UpdateA1Text();
      assert a2Text in validA2Selections;
      ghost var k :| 0 <= k < |a2| && a2[k] == a2Text;
      assert IsValidProduct(a1Text, a2[k]);
      UpdateValidA2Selections();
    }

    /** Moves A1 backward to the previous option forming a valid product with
        the shown A2, then refilters the A2 options against the new A1. */
    method DecrementA1()
      requires Valid()
      requires exists j :: 0 <= j < |validA1Selections| && IsValidProduct(validA1Selections[j], a2Text)
      modifies this`currentA1Index, this`a1Text, this`validA2Selections, this`currentA2Index, this`a2Text
      ensures Valid() && SelectionValid()
      ensures a2Text == old(a2Text)
      ensures forall j :: 0 <= j < |validA1Selections| && PassedForward(currentA1Index, j, old(currentA1Index))
                ==> !IsValidProduct(validA1Selections[j], a2Text)
      ensures validA2Selections == Compatible(a2, a1Text)
      ensures currentA2Index == IndexOf(validA2Selections, a2Text)
    {
      var n := |validA1Selections|;
      ghost var start := currentA1Index;
      ghost var target :| 0 <= target < n && IsValidProduct(validA1Selections[target], a2Text);
      currentA1Index := CyclicPrevious(currentA1Index, n);
      while !IsValidProduct(validA1Selections[currentA1Index], a2Text)
        invariant 0 <= currentA1Index < n
        invariant a2Text == old(a2Text) && ValidA2()
        invariant forall j :: 0 <= j < n && PassedForward(currentA1Index, j, start)
                    ==> !IsValidProduct(validA1Selections[j], a2Text)
        decreases if target <= currentA1Index then currentA1Index - target else currentA1Index - target + n
      {
          currentA1Index := CyclicPrevious(currentA1Index, n);
      }
      UpdateA1Text();
      assert a2Text in validA2Selections;
      ghost var k :| 0 <= k < |a2| && a2[k] == a2Text;
      assert IsValidProduct(a1Text, a2[k]);
      UpdateValidA2Selections();
    }

    /** Moves A2 forward to the next option forming a valid product with the
        shown A1, then refilters the A1 options against the new A2. */
    method IncrementA2()
      requires Valid()
      requires exists j :: 0 <= j < |validA2Selections| && IsValidProduct(a1Text, validA2Selections[j])
      modifies this`currentA2Index, this`a2Text, this`validA1Selections, this`currentA1Index, this`a1Text
      ensures Valid() && SelectionValid()
      ensures a1Text == old(a1Text)
      ensures forall j :: 0 <= j < |validA2Selections| && PassedForward(old(currentA2Index), j, currentA2Index)
                ==> !IsValidProduct(a1Text, validA2Selections[j])
      ensures validA1Selections == Compatible(a1, a2Text)
      ensures currentA1Index == IndexOf(validA1Selections, a1Text)
    {
      var n := |validA2Selections|;
      ghost var start := currentA2Index;
      ghost var target :| 0 <= target < n && IsValidProduct(a1Text, validA2Selections[target]);
      currentA2Index := CyclicNext(currentA2Index, n);
      while !IsValidProduct(a1Text, validA2Selections[currentA2Index])
        invariant 0 <= currentA2Index < n
        invariant a1Text == old(a1Text) && ValidA1()
        invariant forall j :: 0 <= j < n && PassedForward(start, j, currentA2Index)
                    ==> !IsValidProduct(a1Text, validA2Selections[j])
        decreases if currentA2Index <= target then target - currentA2Index else target - currentA2Index + n
      {
          currentA2Index := CyclicNext(currentA2Index, n);
      }
      UpdateA2Text();
      assert a1Text in validA1Selections;
      ghost var k :| 0 <= k < |a1| && a1[k] == a1Text;
      assert IsValidProduct(a1[k], a2Text);
      UpdateValidA1Selections();
    }

    /** Moves A2 backward to the previous option forming a valid product with
        the shown A1, then refilters the A1 options against the new A2. */
    method DecrementA2()
      requires Valid()
      requires exists j :: 0 <= j < |validA2Selections| && IsValidProduct(a1Text, validA2Selections[j])
      modifies this`currentA2Index, this`a2Text, this`validA1Selections, this`currentA1Index, this`a1Text
      ensures Valid() && SelectionValid()
      ensures a1Text == old(a1Text)
      ensures forall j :: 0 <= j < |validA2Selections| && PassedForward(currentA2Index, j, old(currentA2Index))
                ==> !IsValidProduct(a1Text, validA2Selections[j])
      ensures validA1Selections == Compatible(a1, a2Text)
      ensures currentA1Index == IndexOf(validA1Selections, a1Text)
    {
      var n := |validA2Selections|;
      ghost var start := currentA2Index;
      ghost var target :| 0 <= target < n && IsValidProduct(a1Text, validA2Selections[target]);
      currentA2Index := CyclicPrevious(currentA2Index, n);
      while !IsValidProduct(a1Text, validA2Selections[currentA2Index])
        invariant 0 <= currentA2Index < n
        invariant a1Text == old(a1Text) && ValidA1()
        invariant forall j :: 0 <= j < n && PassedForward(currentA2Index, j, start)
                    ==> !IsValidProduct(a1Text, validA2Selections[j])
        decreases if target <= currentA2Index then currentA2Index - target else currentA2Index - target + n
      {
          currentA2Index := CyclicPrevious(currentA2Index, n);
      }
      UpdateA2Text();
      assert a1Text in validA1Selections;
      ghost var k :| 0 <= k < |a1| && a1[k] == a1Text;
      assert IsValidProduct(a1[k], a2Text);
      UpdateValidA1Selections();
    }

    method UpdateA1Text()
      requires 0 <= currentA1Index < |validA1Selections|
      modifies this`a1Text
      ensures a1Text == validA1Selections[currentA1Index]
    {
      a1Text := validA1Selections[currentA1Index];
    }

    method UpdateA2Text()
      requires 0 <= currentA2Index < |validA2Selections|
      modifies this`a2Text
      ensures a2Text == validA2Selections[currentA2Index]
    {
      a2Text := validA2Selections[currentA2Index];
    }

    /** Rebuilds the A1 options as `a1` filtered against the shown A2, keeps
        the shown A1 selected when it is still offered and otherwise selects
        the first option. Showing from an empty list would fail, hence the
        requirement that some option of `a1` fits. */
    method UpdateValidA1Selections()
      requires exists j :: 0 <= j < |a1| && IsValidProduct(a1[j], a2Text)
      modifies this`validA1Selections, this`currentA1Index, this`a1Text
      ensures ValidA1()
      ensures validA1Selections == Compatible(a1, a2Text)
      ensures old(a1Text) in validA1Selections ==> a1Text == old(a1Text) && currentA1Index == IndexOf(validA1Selections, a1Text)
      ensures old(a1Text) !in validA1Selections ==> currentA1Index == 0
    {
      validA1Selections := [];
      var selectedA2 := a2Text;
      for i := 0 to |a1|
        invariant validA1Selections == Compatible(a1[..i], selectedA2)
        invariant a1Text == old(a1Text)
      {
        assert a1[..i + 1] == a1[..i] + [a1[i]];
        if IsValidProduct(a1[i], selectedA2) {
          validA1Selections := validA1Selections + [a1[i]];
        }
      }
      assert a1[..|a1|] == a1;
      ghost var j :| 0 <= j < |a1| && IsValidProduct(a1[j], a2Text);
      assert a1[j] in validA1Selections;
      currentA1Index := IndexOf(validA1Selections, a1Text);
      if currentA1Index < 0 {
        currentA1Index := 0;
      }
      UpdateA1Text();
    }

    /** Rebuilds the A2 options as `a2` filtered against the shown A1, keeps
        the shown A2 selected when it is still offered and otherwise selects
        the first option. */
    method UpdateValidA2Selections()
      requires exists j :: 0 <= j < |a2| && IsValidProduct(a1Text, a2[j])
      modifies this`validA2Selections, this`currentA2Index, this`a2Text
      ensures ValidA2()
      ensures validA2Selections == Compatible(a2, a1Text)
      ensures old(a2Text) in validA2Selections ==> a2Text == old(a2Text) && currentA2Index == IndexOf(validA2Selections, a2Text)
      ensures old(a2Text) !in validA2Selections ==> currentA2Index == 0
    {
      validA2Selections := [];
      var selectedA1 := a1Text;
      for i := 0 to |a2|
        invariant validA2Selections == Compatible(a2[..i], selectedA1)
        invariant a2Text == old(a2Text)
      {
        assert a2[..i + 1] == a2[..i] + [a2[i]];
        ValidProductSymmetric(selectedA1, a2[i]);
        if IsValidProduct(selectedA1, a2[i]) {
          validA2Selections := validA2Selections + [a2[i]];
        }
      }
      assert a2[..|a2|] == a2;
      ghost var j :| 0 <= j < |a2| && IsValidProduct(a1Text, a2[j]);
      assert a2[j] in validA2Selections;
      currentA2Index := IndexOf(validA2Selections, a2Text);
      if currentA2Index < 0 {
        currentA2Index := 0;
      }
      UpdateA2Text();
    }

    /** Hands the shown selection to the game scene as a new game. */
    method Play(settings: GameSettings)
      modifies this`rows, this`cols, settings
      ensures rows == a1Text && cols == a2Text
      ensures settings.rows == a1Text && settings.cols == a2Text && !settings.loadGame
    {
      rows := a1Text;
      cols := a2Text;
      settings.rows := a1Text;
      settings.cols := a2Text;
      settings.loadGame := false;
    }

    /** Asks the game scene to load the saved game; the dimensions stay as they are. */
    method Load(settings: GameSettings)
      modifies settings`loadGame
      ensures settings.loadGame
    {
      settings.loadGame := true;
    }
  }

  /** A menu showing a valid selection can always step either axis: the shown
      entry itself is a valid entry for the search to stop at. */
  lemma ValidSelectionCanStep(m: MenuManager)
    requires m.Valid() && m.SelectionValid()
    ensures exists j :: 0 <= j < |m.validA1Selections| && IsValidProduct(m.validA1Selections[j], m.a2Text)
    ensures exists j :: 0 <= j < |m.validA2Selections| && IsValidProduct(m.a1Text, m.validA2Selections[j])
  {
    assert IsValidProduct(m.validA1Selections[m.currentA1Index], m.a2Text);
    assert IsValidProduct(m.a1Text, m.validA2Selections[m.currentA2Index]);
  }

  /** The menu starts on 2 × 2 with the default options, a valid board. */
  lemma DefaultStartIsValid()
    ensures IsValidProduct(DefaultOptions[0], DefaultOptions[0])
  {
  }
}
