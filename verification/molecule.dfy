/**
 * The Molecule Builder game: three challenges (water, oxygen gas, methane),
 * each a target list of element counts.  The player adds atoms one at a time;
 * a completion check marks the challenge done and scores it, and a delayed
 * step moves on to the next challenge or opens the completion dialog.
 */
module Molecule {
  import opened Wrappers

  /** The four atom kinds the game knows (the keys of its atom table). */
  datatype Element = H | O | C | N

  function Symbol(e: Element): (sym: string)
    ensures |sym| == 1
  {
    match e
    case H => "H"
    case O => "O"
    case C => "C"
    case N => "N"
  }

  /** One entry of a challenge's target: `count` atoms of `element`. */
  datatype TargetAtom = TargetAtom(element: Element, count: int)

  datatype Challenge = Challenge(id: string, targetAtoms: seq<TargetAtom>)

  const Challenges: seq<Challenge> := [
    Challenge("water", [TargetAtom(H, 2), TargetAtom(O, 1)]),
    Challenge("oxygen", [TargetAtom(O, 2)]),
    Challenge("methane", [TargetAtom(C, 1), TargetAtom(H, 4)])
  ]

  /** An atom placed in the build area; the stamp and position come from the clock and the random source. */
  datatype BondedAtom = BondedAtom(stamp: int, element: Element, x: real, y: real)

  datatype GameState = GameState(
    currentChallengeIndex: int,
    score: int,
    bondedAtoms: seq<BondedAtom>,
    selectedAtom: Option<string>,
    isComplete: bool,
    showInvalidFeedback: bool,
    showCompletion: bool)

  const Initial: GameState := GameState(0, 0, [], None, false, false, false)

  // ---------------------------------------------------------------------------
  // Counting

  function Count(s: seq<Element>, e: Element): (n: nat)
    ensures n == multiset(s)[e]
    ensures n <= |s|
  {
    if s == [] then 0
    else
      assert s == s[..|s| - 1] + [s[|s| - 1]];
      Count(s[..|s| - 1], e) + (if s[|s| - 1] == e then 1 else 0)
  }

  function Elements(atoms: seq<BondedAtom>): (es: seq<Element>)
    ensures |es| == |atoms|
    ensures forall i :: 0 <= i < |atoms| ==> es[i] == atoms[i].element
  {
    if atoms == [] then [] else Elements(atoms[..|atoms| - 1]) + [atoms[|atoms| - 1].element]
  }

  // ---------------------------------------------------------------------------
  // The formula line shown above the build area

  /** The elements of `s`, each once, in the order they first occur. */
  function Distinct(s: seq<Element>): seq<Element> {
    if s == [] then []
    else
      var d := Distinct(s[..|s| - 1]);
      if s[|s| - 1] in d then d else d + [s[|s| - 1]]
  }

  predicate NoDuplicates(d: seq<Element>) {
    forall i, j :: 0 <= i < j < |d| ==> d[i] != d[j]
  }

  /** Position of the first occurrence of `e` in `s`. */
  function FirstIndex(s: seq<Element>, e: Element): (k: nat)
    requires e in s
    ensures k < |s| && s[k] == e
    ensures forall j :: 0 <= j < k ==> s[j] != e
  {
    if s[0] == e then 0 else 1 + FirstIndex(s[1..], e)
  }

  /** The subscript digit for 0..9; the source indexes past its digit string for larger counts and gets `undefined`. */
  function Subscript(count: int): (t: string)
    ensures 0 <= count < 10 ==> |t| == 1 && t[0] as int == 0x2080 + count
  {
    if 0 <= count < 10 then [(0x2080 + count) as char] else "undefined"
  }

  /** One element's token: the bare symbol for one atom, else symbol and subscript. */
  function Token(e: Element, count: int): (t: string)
    ensures |t| >= 1 && t[..1] == Symbol(e)
    ensures count == 1 <==> t == Symbol(e)
    ensures 0 <= count <= 9 && count != 1 ==> t == Symbol(e) + [(0x2080 + count) as char]
    ensures (count < 0 || count > 9) ==> t == Symbol(e) + "undefined"
  {
    if count == 1 then Symbol(e) else Symbol(e) + Subscript(count)
  }

  /** The formula as the source defines it: one token per distinct element, in first-occurrence order. */
  function FormulaOf(s: seq<Element>): string {
    JoinTokens(s, Distinct(s))
  }

  function JoinTokens(s: seq<Element>, order: seq<Element>): string {
    if order == [] then ""
    else JoinTokens(s, order[..|order| - 1]) + Token(order[|order| - 1], Count(s, order[|order| - 1]))
  }

  lemma {:induction false} DistinctSpec(s: seq<Element>)
    ensures NoDuplicates(Distinct(s))
    ensures forall e :: e in Distinct(s) <==> e in s
    decreases |s|
  {
    if s != [] {
      DistinctSpec(s[..|s| - 1]);
      assert s == s[..|s| - 1] + [s[|s| - 1]];
    }
  }

  lemma {:induction false} DistinctFirstOccurrenceOrder(s: seq<Element>)
    ensures forall i, j :: 0 <= i < j < |Distinct(s)| ==>
      Distinct(s)[i] in s && Distinct(s)[j] in s &&
      FirstIndex(s, Distinct(s)[i]) < FirstIndex(s, Distinct(s)[j])
    decreases |s|
  {
    if s != [] {
      var p := s[..|s| - 1];
      var x := s[|s| - 1];
      assert s == p + [x];
      DistinctSpec(s);
      DistinctSpec(p);
      DistinctFirstOccurrenceOrder(p);
      var d := Distinct(p);
      var ds := Distinct(s);
      forall i, j | 0 <= i < j < |ds|
        ensures ds[i] in s && ds[j] in s && FirstIndex(s, ds[i]) < FirstIndex(s, ds[j])
      {
        assert ds[i] == d[i];
        assert d[i] in p;
        PrefixFirstIndex(p, x, ds[i]);
        if j < |d| {
          assert ds[j] == d[j];
          assert d[j] in p;
          PrefixFirstIndex(p, x, ds[j]);
          assert FirstIndex(p, d[i]) < FirstIndex(p, d[j]);
        } else {
          assert ds[j] == x && x !in p;
          assert FirstIndex(s, x) == |s| - 1;
          assert FirstIndex(p, d[i]) < |p|;
        }
      }
    } else {
      assert Distinct(s) == [];
    }
  }

  lemma {:induction false} PrefixFirstIndex(p: seq<Element>, x: Element, e: Element)
    requires e in p
    ensures e in p + [x] && FirstIndex(p + [x], e) == FirstIndex(p, e)
    decreases |p|
  {
    if p[0] != e {
      assert (p + [x])[1..] == p[1..] + [x];
      PrefixFirstIndex(p[1..], x, e);
    }
  }

  lemma {:induction false} JoinTokensEmpty(s: seq<Element>, order: seq<Element>)
    ensures JoinTokens(s, order) == "" <==> order == []
    decreases |order|
  {
    if order != [] {
      JoinTokensEmpty(s, order[..|order| - 1]);
    }
  }

  /** The formula is empty exactly when no atom has been placed. */
  lemma FormulaEmptyIff(s: seq<Element>)
    ensures FormulaOf(s) == "" <==> s == []
  {
    JoinTokensEmpty(s, Distinct(s));
    DistinctSpec(s);
    if s != [] {
      assert s[0] in Distinct(s);
    }
  }

  /** The formula of water's atoms, added hydrogen first, reads H₂O. */
  lemma WaterFormula()
    ensures FormulaOf([H, H, O]) == "H" + [0x2082 as char] + "O"
  {
    assert [H, H, O][..2] == [H, H];
    assert [H, H][..1] == [H];
    assert [H][..0] == [];
    assert Distinct([H, H, O]) == [H, O];
    assert Count([H, H, O], H) == 2;
    assert Count([H, H, O], O) == 1;
  }

  /**
   * The tally pass of the formula routine: a count per element in a table
   * that remembers the order in which elements were first inserted.
   */
  method TallyElements(es: seq<Element>) returns (order: seq<Element>, counts: map<Element, int>)
    ensures order == Distinct(es)
    ensures forall e :: e in counts <==> e in es
    ensures forall e :: e in counts ==> counts[e] == Count(es, e)
  {
    order := [];
    counts := map[];
    var i := 0;
    while i < |es|
      invariant 0 <= i <= |es|
      invariant order == Distinct(es[..i])
      invariant forall e :: e in counts <==> e in order
      invariant forall e :: e in counts ==> counts[e] == Count(es[..i], e)
    {
      var el := es[i];
      assert es[..i + 1][..i] == es[..i];
      assert es[..i + 1][i] == el;
      DistinctSpec(es[..i]);
      if el in counts {
        counts := counts[el := counts[el] + 1];
      } else {
        counts := counts[el := 1];
        order := order + [el];
      }
      i := i + 1;
    }
    assert es[..i] == es;
    DistinctSpec(es);
  }

  /**
   * The source's formula routine: tally the placed atoms, then join one
   * token per table entry in insertion order.
   */
  method GenerateFormula(atoms: seq<BondedAtom>) returns (f: string)
    ensures f == FormulaOf(Elements(atoms))
    ensures f == "" <==> atoms == []
  {
    var es := Elements(atoms);
    FormulaEmptyIff(es);
    if |atoms| == 0 {
      return "";
    }
    var order, counts := TallyElements(es);
    DistinctSpec(es);
    f := JoinTally(es, order, counts);
  }

  /** The join pass of the formula routine: one token per tallied element, in table order. */
  method JoinTally(es: seq<Element>, order: seq<Element>, counts: map<Element, int>) returns (f: string)
    requires forall e :: e in order ==> e in counts && counts[e] == Count(es, e)
    ensures f == JoinTokens(es, order)
  {
    f := "";
    var k := 0;
    while k < |order|
      invariant 0 <= k <= |order|
      invariant f == JoinTokens(es, order[..k])
    {
      assert order[..k + 1][..k] == order[..k];
      f := f + Token(order[k], counts[order[k]]);
      k := k + 1;
    }
    assert order[..k] == order;
  }

  // ---------------------------------------------------------------------------
  // The completion check

  /** The target written out: `count` copies of each element, in target order. */
  function Expand(target: seq<TargetAtom>): seq<Element> {
    if target == [] then []
    else Expand(target[..|target| - 1]) + Repeat(target[|target| - 1].element, target[|target| - 1].count)
  }

  /**
   * `n` copies of `e`. A negative `n` gives none here, where the source's
   * `Array(n)` would throw; no challenge has a negative count, so that case
   * is never reached.
   */
  function Repeat(e: Element, n: int): (r: seq<Element>)
    ensures |r| == if n < 0 then 0 else n
    ensures forall i :: 0 <= i < |r| ==> r[i] == e
  {
    if n <= 0 then [] else Repeat(e, n - 1) + [e]
  }

  /**
   * Total number of atoms the target asks for. A negative count adds none,
   * matching Repeat; the source would throw there, but no challenge has one.
   */
  function TotalCount(target: seq<TargetAtom>): nat {
    if target == [] then 0
    else
      var c := target[|target| - 1].count;
      TotalCount(target[..|target| - 1]) + (if c < 0 then 0 else c)
  }

  /** How many atoms of `e` the target asks for, over all its entries. */
  function TargetCount(target: seq<TargetAtom>, e: Element): nat {
    if target == [] then 0
    else
      var t := target[|target| - 1];
      TargetCount(target[..|target| - 1], e) + (if t.element == e && t.count > 0 then t.count else 0)
  }

  lemma {:induction false} ExpandSpec(target: seq<TargetAtom>)
    ensures |Expand(target)| == TotalCount(target)
    ensures forall e :: multiset(Expand(target))[e] == TargetCount(target, e)
    decreases |target|
  {
    if target != [] {
      var t := target[|target| - 1];
      ExpandSpec(target[..|target| - 1]);
      RepeatCount(t.element, t.count);
    }
  }

  lemma {:induction false} RepeatCount(e: Element, n: int)
    ensures forall x :: multiset(Repeat(e, n))[x] == if x == e && n > 0 then n else 0
    decreases if n < 0 then 0 else n
  {
    if n > 0 {
      RepeatCount(e, n - 1);
    }
  }

  /** The check as written: same length, and every added element appears somewhere in the target. */
  predicate IsCorrect(added: seq<Element>, target: seq<TargetAtom>) {
    var expanded := Expand(target);
    |added| == |expanded| && forall i :: 0 <= i < |added| ==> added[i] in expanded
  }

  /** The check depends only on which elements were added and how often, not on their order. */
  lemma IsCorrectOrderIndependent(a: seq<Element>, b: seq<Element>, target: seq<TargetAtom>)
    requires multiset(a) == multiset(b)
    ensures IsCorrect(a, target) <==> IsCorrect(b, target)
  {
    assert |a| == |multiset(a)| == |multiset(b)| == |b|;
    forall i | 0 <= i < |a|
      ensures a[i] in b
    {
      assert a[i] in multiset(a);
    }
    forall i | 0 <= i < |b|
      ensures b[i] in a
    {
      assert b[i] in multiset(b);
    }
  }

  /** Exactly the target's atoms, in any order, pass the check. */
  lemma ExactAtomsAreCorrect(added: seq<Element>, target: seq<TargetAtom>)
    requires multiset(added) == multiset(Expand(target))
    ensures IsCorrect(added, target)
  {
    IsCorrectOrderIndependent(added, Expand(target), target);
  }

  /** The check is weaker than multiset equality: three hydrogens pass as water. */
  lemma ThreeHydrogensPassAsWater()
    ensures IsCorrect([H, H, H], Challenges[0].targetAtoms)
    ensures multiset([H, H, H]) != multiset(Expand(Challenges[0].targetAtoms))
  {
    var t := Challenges[0].targetAtoms;
    assert t[..1] == [TargetAtom(H, 2)];
    assert t[..1][..0] == [];
    assert Repeat(H, 2) == [H, H];
    assert Repeat(O, 1) == [O];
    assert Expand(t) == [H, H, O];
    assert multiset([H, H, H])[O] == 0;
    assert multiset([H, H, O])[O] == 1;
  }

  /** A multiset no larger than another anywhere and of the same size equals it. */
  lemma SubMultisetSameSize(a: multiset<Element>, b: multiset<Element>)
    requires a <= b && |a| == |b|
    ensures a == b
  {
    var d := b - a;
    assert b == a + d;
    assert |d| == 0;
  }

  /** The button gating: only target elements, each no more often than the target asks. */
  predicate WithinTarget(added: seq<Element>, target: seq<TargetAtom>) {
    forall e :: Count(added, e) <= TargetCount(target, e)
  }

  /** Under the gating, the length-and-membership check is exactly multiset equality. */
  lemma GatedCheckIsMultisetEquality(added: seq<Element>, target: seq<TargetAtom>)
    requires WithinTarget(added, target)
    ensures IsCorrect(added, target) <==> multiset(added) == multiset(Expand(target))
  {
    ExpandSpec(target);
    if IsCorrect(added, target) {
      assert multiset(added) <= multiset(Expand(target)) by {
        forall e
          ensures multiset(added)[e] <= multiset(Expand(target))[e]
        {
          assert Count(added, e) <= TargetCount(target, e);
        }
      }
      SubMultisetSameSize(multiset(added), multiset(Expand(target)));
    } else if multiset(added) == multiset(Expand(target)) {
      ExactAtomsAreCorrect(added, target);
    }
  }

  // ---------------------------------------------------------------------------
  // The reducers

  function CurrentTarget(st: GameState): seq<TargetAtom>
    requires 0 <= st.currentChallengeIndex < |Challenges|
  {
    Challenges[st.currentChallengeIndex].targetAtoms
  }

  /** Adding an atom: ignored once the challenge is complete, otherwise appends one atom. */
  function AddAtom(st: GameState, element: Element, stamp: int, x: real, y: real): (r: GameState)
    requires -100.0 <= x < 100.0 && -100.0 <= y < 100.0
    ensures st.isComplete ==> r == st
    ensures !st.isComplete ==>
      && Elements(r.bondedAtoms) == Elements(st.bondedAtoms) + [element]
      && r.bondedAtoms[..|st.bondedAtoms|] == st.bondedAtoms
      && r.(bondedAtoms := st.bondedAtoms) == st
  {
    if st.isComplete then st
    else st.(bondedAtoms := st.bondedAtoms + [BondedAtom(stamp, element, x, y)])
  }

  /** Clearing the build area keeps the challenge and the score. */
  function Clear(st: GameState): (r: GameState)
    ensures r.bondedAtoms == [] && r.selectedAtom == None
    ensures !r.isComplete && !r.showInvalidFeedback
    ensures r.currentChallengeIndex == st.currentChallengeIndex && r.score == st.score
    ensures r.showCompletion == st.showCompletion
  {
    st.(bondedAtoms := [], selectedAtom := None, isComplete := false, showInvalidFeedback := false)
  }

  /** "Play again" from the completion dialog starts over. */
  function Retry(st: GameState): (r: GameState)
    ensures r.currentChallengeIndex == 0 && r.score == 0 && r.bondedAtoms == []
    ensures r.selectedAtom == None && !r.isComplete && !r.showInvalidFeedback && !r.showCompletion
  {
    Initial
  }

  /**
   * The completion check that runs whenever the atoms change: the first time
   * the placed atoms pass the check, the challenge is marked complete and
   * scored once.
   */
  function CheckCompletion(st: GameState): (r: GameState)
    requires 0 <= st.currentChallengeIndex < |Challenges|
    ensures r.isComplete == (st.isComplete ||
      (|st.bondedAtoms| > 0 && IsCorrect(Elements(st.bondedAtoms), CurrentTarget(st))))
    ensures r.score == st.score + (if r.isComplete && !st.isComplete then 1 else 0)
    ensures r.(isComplete := st.isComplete, score := st.score) == st
  {
    if |st.bondedAtoms| == 0 then st
    else if IsCorrect(Elements(st.bondedAtoms), CurrentTarget(st)) && !st.isComplete then
      st.(isComplete := true, score := st.score + 1)
    else st
  }

  /** The delayed step after a completion: the next challenge, or the completion dialog after the last. */
  function Advance(st: GameState): (r: GameState)
    ensures st.currentChallengeIndex < |Challenges| - 1 ==>
      && r.currentChallengeIndex == st.currentChallengeIndex + 1
      && r.bondedAtoms == [] && r.selectedAtom == None && !r.isComplete
      && r.(currentChallengeIndex := st.currentChallengeIndex, bondedAtoms := st.bondedAtoms,
            selectedAtom := st.selectedAtom, isComplete := st.isComplete) == st
    ensures st.currentChallengeIndex >= |Challenges| - 1 ==>
      r == st.(showCompletion := true)
  {
    if st.currentChallengeIndex < |Challenges| - 1 then
      st.(currentChallengeIndex := st.currentChallengeIndex + 1,
          bondedAtoms := [],
          selectedAtom := None,
          isComplete := false)
    else
      st.(showCompletion := true)
  }

  // ---------------------------------------------------------------------------
  // Reachable states under the button gating

  datatype Event =
    | AddClick(element: Element, stamp: int, x: real, y: real)
    | ClearClick
    | RetryClick
    | Check
    | AdvanceTimer

  /** An atom button is offered for a target element while fewer than its count are placed. */
  predicate AddEnabled(st: GameState, e: Element)
    requires 0 <= st.currentChallengeIndex < |Challenges|
  {
    && !st.isComplete
    && exists t :: t in CurrentTarget(st) && t.element == e &&
         Count(Elements(st.bondedAtoms), e) < t.count
  }

  predicate Enabled(st: GameState, ev: Event)
    requires 0 <= st.currentChallengeIndex < |Challenges|
  {
    match ev
    case AddClick(e, _, x, y) => AddEnabled(st, e) && -100.0 <= x < 100.0 && -100.0 <= y < 100.0
    case ClearClick => true
    case RetryClick => true
    case Check => true
    case AdvanceTimer => st.isComplete
  }

  function Step(st: GameState, ev: Event): GameState
    requires 0 <= st.currentChallengeIndex < |Challenges|
    requires Enabled(st, ev)
  {
    match ev
    case AddClick(e, stamp, x, y) => AddAtom(st, e, stamp, x, y)
    case ClearClick => Clear(st)
    case RetryClick => Retry(st)
    case Check => CheckCompletion(st)
    case AdvanceTimer => Advance(st)
  }

  /** The invariant of gated play: a valid challenge index and never more atoms of an element than the target asks for. */
  predicate Inv(st: GameState) {
    && 0 <= st.currentChallengeIndex < |Challenges|
    && st.score >= 0
    && WithinTarget(Elements(st.bondedAtoms), CurrentTarget(st))
  }

  lemma ChallengesHaveDistinctElements()
    ensures forall k, i, j :: 0 <= k < |Challenges| && 0 <= i < j < |Challenges[k].targetAtoms| ==>
      Challenges[k].targetAtoms[i].element != Challenges[k].targetAtoms[j].element
  {
  }

  lemma {:induction false} TargetCountOfEntry(target: seq<TargetAtom>, k: nat)
    requires k < |target|
    requires forall i, j :: 0 <= i < j < |target| ==> target[i].element != target[j].element
    ensures TargetCount(target, target[k].element) == if target[k].count > 0 then target[k].count else 0
    decreases |target|
  {
    var p := target[..|target| - 1];
    if k < |target| - 1 {
      TargetCountOfEntry(p, k);
      assert target[k] == p[k];
    } else {
      TargetCountAbsent(p, target[k].element);
    }
  }

  lemma {:induction false} TargetCountAbsent(target: seq<TargetAtom>, e: Element)
    requires forall i :: 0 <= i < |target| ==> target[i].element != e
    ensures TargetCount(target, e) == 0
    decreases |target|
  {
    if target != [] {
      TargetCountAbsent(target[..|target| - 1], e);
    }
  }

  /** One more atom of an element still below its target keeps the build within the target. */
  lemma WithinTargetSnoc(added: seq<Element>, e: Element, target: seq<TargetAtom>)
    requires WithinTarget(added, target) && Count(added, e) < TargetCount(target, e)
    ensures WithinTarget(added + [e], target)
  {
    forall el
      ensures Count(added + [e], el) <= TargetCount(target, el)
    {
      assert (added + [e])[..|added|] == added;
    }
  }

  lemma AddPreservesInv(st: GameState, e: Element, stamp: int, x: real, y: real)
    requires Inv(st) && AddEnabled(st, e) && -100.0 <= x < 100.0 && -100.0 <= y < 100.0
    ensures Inv(AddAtom(st, e, stamp, x, y))
  {
    var target := CurrentTarget(st);
    var t :| t in target && t.element == e && Count(Elements(st.bondedAtoms), e) < t.count;
    var k :| 0 <= k < |target| && target[k] == t;
    ChallengesHaveDistinctElements();
    TargetCountOfEntry(target, k);
    WithinTargetSnoc(Elements(st.bondedAtoms), e, target);
  }

  lemma StepPreservesInv(st: GameState, ev: Event)
    requires Inv(st) && Enabled(st, ev)
    ensures Inv(Step(st, ev))
  {
    match ev
    case AddClick(e, stamp, x, y) => AddPreservesInv(st, e, stamp, x, y);
    case ClearClick =>
    case RetryClick =>
    case Check =>
    case AdvanceTimer =>
  }

  /** Gated play from the opening state, given as the sequence of events taken. */
  predicate ValidRun(st: GameState, evs: seq<Event>)
    decreases |evs|
  {
    evs == [] ||
    (0 <= st.currentChallengeIndex < |Challenges| && Enabled(st, evs[0]) &&
     ValidRun(Step(st, evs[0]), evs[1..]))
  }

  function Run(st: GameState, evs: seq<Event>): GameState
    requires ValidRun(st, evs)
    decreases |evs|
  {
    if evs == [] then st else Run(Step(st, evs[0]), evs[1..])
  }

  lemma {:induction false} RunPreservesInv(st: GameState, evs: seq<Event>)
    requires Inv(st) && ValidRun(st, evs)
    ensures Inv(Run(st, evs))
    decreases |evs|
  {
    if evs != [] {
      StepPreservesInv(st, evs[0]);
      RunPreservesInv(Step(st, evs[0]), evs[1..]);
    }
  }

  /**
   * In every state gated play reaches, the challenge index stays in range and
   * the completion check fires exactly when the placed atoms are the target's
   * atoms, counted with multiplicity, in any order.
   */
  lemma GatedPlayChecksMultisets(evs: seq<Event>)
    requires ValidRun(Initial, evs)
    ensures var st := Run(Initial, evs);
      && 0 <= st.currentChallengeIndex < |Challenges|
      && (CheckCompletion(st).isComplete && !st.isComplete <==>
            !st.isComplete && |st.bondedAtoms| > 0 &&
            multiset(Elements(st.bondedAtoms)) == multiset(Expand(CurrentTarget(st))))
  {
    assert Inv(Initial);
    RunPreservesInv(Initial, evs);
    var st := Run(Initial, evs);
    GatedCheckIsMultisetEquality(Elements(st.bondedAtoms), CurrentTarget(st));
  }
}
