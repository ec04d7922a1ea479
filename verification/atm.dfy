/** The ATM withdrawal of the Chain-of-Responsibility exercise.

    The exercise chains three `BanknoteHandler`s, 2000 then 500 then 100; each hands out
    as many notes of its value as fit into the amount it receives and passes what is left
    to the next handler, and the last one reports an amount it cannot dispense. The
    handler bodies are left unimplemented in the exercise, so this module models the
    contract its requirements state. The linked chain becomes a fold over the ordered list
    of denominations: `Chain` handles the first denomination and passes the remainder on
    to the rest of the list. */
module Atm {

  import opened Wrappers

  /** The denominations of the chain, in the order the handlers are linked. */
  const Denominations: seq<nat> := [2000, 500, 100]

  const CannotDispenseMessage := "Amount cannot be fully dispensed in available denominations."

  /** What one handler did: its note value, the notes it handed out, and the amount it
      passed on to the next handler. */
  datatype HandlerStep = HandlerStep(denomination: nat, count: nat, passedOn: nat)

  /** The steps of every handler of the chain, in chain order, and the amount left over
      after the last one. */
  datatype Plan = Plan(steps: seq<HandlerStep>, leftover: nat)

  predicate AllPositive(ds: seq<nat>) {
    forall i :: 0 <= i < |ds| ==> ds[i] > 0
  }

  /** Total value of the notes handed out by `steps`. */
  function Value(steps: seq<HandlerStep>): nat
    decreases |steps|
  {
    if |steps| == 0 then 0
    else steps[0].count * steps[0].denomination + Value(steps[1..])
  }

  /** The amount handler `i` receives: the request itself for the first handler, and
      what the previous handler passed on for every other one. */
  function Received(amount: nat, steps: seq<HandlerStep>, i: nat): nat
    requires i <= |steps|
  {
    if i == 0 then amount else steps[i - 1].passedOn
  }

  /** The requirements as a relation, independent of how the split is computed: handler
      `i` owns denomination `ds[i]`, splits what it receives into its notes plus what it
      passes on, and passes on less than one of its own notes (it took all that fit);
      the leftover is what the last handler passes on. */
  ghost predicate IsGreedySplit(amount: nat, ds: seq<nat>, p: Plan) {
    && |p.steps| == |ds|
    && p.leftover == Received(amount, p.steps, |ds|)
    && forall i :: 0 <= i < |ds| ==>
         && p.steps[i].denomination == ds[i]
         && Received(amount, p.steps, i) == p.steps[i].count * ds[i] + p.steps[i].passedOn
         && p.steps[i].passedOn < ds[i]
  }

  /** The chain `ds` applied to `amount`: each handler takes as many notes as fit and
      passes the remainder to the next. Notes handed out plus the leftover make up the
      request, and every handler passes on less than one of its own notes. */
  function Chain(amount: nat, ds: seq<nat>): (p: Plan)
    requires AllPositive(ds)
    ensures |p.steps| == |ds|
    ensures forall i :: 0 <= i < |ds| ==> p.steps[i].denomination == ds[i] && p.steps[i].passedOn < ds[i]
    ensures Value(p.steps) + p.leftover == amount
    ensures |ds| == 0 ==> p.leftover == amount
    ensures |ds| > 0 ==> p.leftover == p.steps[|ds| - 1].passedOn
    decreases |ds|
  {
    if |ds| == 0 then Plan([], amount)
    else
      var d := ds[0];
      DivMod(amount, d);
      var step := HandlerStep(d, amount / d, amount % d);
      var rest := Chain(amount % d, ds[1..]);
      var steps := [step] + rest.steps;
      assert steps[1..] == rest.steps;
      Plan(steps, rest.leftover)
  }

  /** `a` is `a / d` notes of `d` plus a remainder below `d`. */
  lemma DivMod(a: nat, d: nat)
    requires d > 0
    ensures a == (a / d) * d + a % d && a % d < d
  {
  }

  /** Division splits `a` uniquely into a multiple of `d` and a remainder below `d`. */
  lemma DivisionIsUnique(a: nat, d: nat, q: nat, r: nat)
    requires d > 0 && a == q * d + r && r < d
    ensures q == a / d && r == a % d
  {
    var q0, r0 := a / d, a % d;
    assert (q - q0) * d == r0 - r;
    SmallMultipleIsZero(q - q0, d, r0 - r);
  }

  /** The only multiple of `d` strictly between `-d` and `d` is zero. */
  lemma SmallMultipleIsZero(x: int, d: int, y: int)
    requires d > 0 && x * d == y && -d < y < d
    ensures x == 0
  {
  }

  /** `Chain` meets the requirements. */
  lemma {:induction false} ChainIsGreedySplit(amount: nat, ds: seq<nat>)
    requires AllPositive(ds)
    ensures IsGreedySplit(amount, ds, Chain(amount, ds))
    decreases |ds|
  {
    if |ds| > 0 {
      var p := Chain(amount, ds);
      var rest := Chain(amount % ds[0], ds[1..]);
      ChainIsGreedySplit(amount % ds[0], ds[1..]);
      assert p.steps[1..] == rest.steps;
      forall i | 0 <= i < |ds|
        ensures Received(amount, p.steps, i) == p.steps[i].count * ds[i] + p.steps[i].passedOn
      {
        if i > 0 {
          assert Received(amount, p.steps, i) == Received(amount % ds[0], rest.steps, i - 1);
        }
      }
    }
  }

  /** The requirements admit no other split: any plan meeting them is the one `Chain`
      computes, so the counts are exactly the greedy (maximal) ones. */
  lemma {:induction false} GreedySplitIsUnique(amount: nat, ds: seq<nat>, p: Plan)
    requires AllPositive(ds)
    requires IsGreedySplit(amount, ds, p)
    ensures p == Chain(amount, ds)
    decreases |ds|
  {
    if |ds| > 0 {
      var d := ds[0];
      DivisionIsUnique(amount, d, p.steps[0].count, p.steps[0].passedOn);
      var tail := Plan(p.steps[1..], p.leftover);
      assert IsGreedySplit(amount % d, ds[1..], tail) by {
        forall i | 0 <= i < |ds| - 1
          ensures Received(amount % d, tail.steps, i) == Received(amount, p.steps, i + 1)
        {
        }
        assert Received(amount % d, tail.steps, |ds| - 1) == Received(amount, p.steps, |ds|);
      }
      GreedySplitIsUnique(amount % d, ds[1..], tail);
      assert p.steps == [p.steps[0]] + tail.steps;
    } else {
      assert p.steps == [];
    }
  }

  /** One line of the dispensing report: `count` notes of value `denomination`. */
  datatype NoteBatch = NoteBatch(denomination: nat, count: nat)

  /** The batch a handler step reports. */
  function BatchOf(h: HandlerStep): NoteBatch {
    NoteBatch(h.denomination, h.count)
  }

  /** The batches actually handed out: the handlers that dispensed at least one note,
      each reported with its own denomination and count. */
  function Dispensed(steps: seq<HandlerStep>): (notes: seq<NoteBatch>)
    ensures forall k :: 0 <= k < |notes| ==> notes[k].count > 0
    ensures |notes| <= |steps|
    decreases |steps|
  {
    if |steps| == 0 then []
    else if steps[0].count == 0 then Dispensed(steps[1..])
    else [BatchOf(steps[0])] + Dispensed(steps[1..])
  }

  /** `b` is the batch of some handler that dispensed at least one note. */
  predicate FromDispensingHandler(steps: seq<HandlerStep>, b: NoteBatch) {
    exists i :: 0 <= i < |steps| && steps[i].count > 0 && b == BatchOf(steps[i])
  }

  /** Every handler that dispensed at least one note reports its batch, and every
      reported batch comes from such a handler. */
  lemma {:induction false} DispensedReportsDispensingHandlers(steps: seq<HandlerStep>)
    ensures forall i :: 0 <= i < |steps| && steps[i].count > 0 ==> BatchOf(steps[i]) in Dispensed(steps)
    ensures forall k :: 0 <= k < |Dispensed(steps)| ==> FromDispensingHandler(steps, Dispensed(steps)[k])
    decreases |steps|
  {
    if |steps| > 0 {
      var rest := Dispensed(steps[1..]);
      DispensedReportsDispensingHandlers(steps[1..]);
      assert forall i :: 1 <= i < |steps| ==> steps[i] == steps[1..][i - 1];
      var notes := Dispensed(steps);
      forall k | 0 <= k < |notes|
        ensures FromDispensingHandler(steps, notes[k])
      {
        if steps[0].count > 0 && k == 0 {
          assert notes[0] == BatchOf(steps[0]) && steps[0].count > 0;
        } else {
          var k' := if steps[0].count > 0 then k - 1 else k;
          assert notes[k] == rest[k'];
          assert FromDispensingHandler(steps[1..], rest[k']);
          var i :| 0 <= i < |steps[1..]| && steps[1..][i].count > 0 && rest[k'] == BatchOf(steps[1..][i]);
          assert steps[i + 1] == steps[1..][i] && 0 <= i + 1 < |steps|;
        }
      }
    }
  }

  /** Denominations strictly falling along a list of batches or handler steps. */
  predicate FallingBatches(notes: seq<NoteBatch>) {
    forall k, l :: 0 <= k < l < |notes| ==> notes[k].denomination > notes[l].denomination
  }

  predicate FallingSteps(steps: seq<HandlerStep>) {
    forall i, j :: 0 <= i < j < |steps| ==> steps[i].denomination > steps[j].denomination
  }

  /** The report keeps the chain's order: when the handlers run from the largest note to
      the smallest, so do the reported batches. */
  lemma {:induction false} DispensedInChainOrder(steps: seq<HandlerStep>)
    requires FallingSteps(steps)
    ensures FallingBatches(Dispensed(steps))
    decreases |steps|
  {
    if |steps| > 0 {
      var rest := Dispensed(steps[1..]);
      assert FallingSteps(steps[1..]) by {
        forall i, j | 0 <= i < j < |steps| - 1
          ensures steps[1..][i].denomination > steps[1..][j].denomination
        {
          assert steps[1..][i] == steps[i + 1] && steps[1..][j] == steps[j + 1];
        }
      }
      DispensedInChainOrder(steps[1..]);
      if steps[0].count > 0 {
        var notes := [BatchOf(steps[0])] + rest;
        forall k, l | 0 <= k < l < |notes|
          ensures notes[k].denomination > notes[l].denomination
        {
          if k == 0 {
            DispensedReportsDispensingHandlers(steps[1..]);
            assert FromDispensingHandler(steps[1..], rest[l - 1]);
            var i :| 0 <= i < |steps[1..]| && steps[1..][i].count > 0 && rest[l - 1] == BatchOf(steps[1..][i]);
            assert steps[1..][i] == steps[i + 1];
          } else {
            assert notes[k] == rest[k - 1] && notes[l] == rest[l - 1];
          }
        }
      }
    }
  }

  /** Total value of a list of batches. */
  function BatchValue(notes: seq<NoteBatch>): nat
    decreases |notes|
  {
    if |notes| == 0 then 0
    else notes[0].count * notes[0].denomination + BatchValue(notes[1..])
  }

  /** Dropping the handlers that dispensed nothing does not change the value paid out. */
  lemma {:induction false} DispensedKeepsValue(steps: seq<HandlerStep>)
    ensures BatchValue(Dispensed(steps)) == Value(steps)
    decreases |steps|
  {
    if |steps| > 0 {
      DispensedKeepsValue(steps[1..]);
      var rest := Dispensed(steps[1..]);
      if steps[0].count > 0 {
        var notes := [BatchOf(steps[0])] + rest;
        assert notes[1..] == rest;
      }
    }
  }

  /** Why a withdrawal request was refused before reaching the chain. */
  datatype WithdrawError = NegativeAmount

  /** The result of one withdrawal: the note batches handed out and the amount that could
      not be dispensed. */
  datatype Report = Report(notes: seq<NoteBatch>, leftover: nat) {

    predicate FullyDispensed() {
      leftover == 0
    }

    /** The failure line the last handler prints: the fixed message exactly when some
        amount could not be dispensed. */
    function FailureMessage(): (m: Option<string>)
      ensures m.Some? <==> !FullyDispensed()
      ensures m.Some? ==> m.value == CannotDispenseMessage
    {
      if leftover > 0 then Some(CannotDispenseMessage) else None
    }
  }

  /** A withdrawal of `amount` through the 2000 -> 500 -> 100 chain. The notes paid out
      plus the leftover make up the request, the leftover is below the smallest note,
      and the failure line is printed exactly when something is left over. */
  function Withdraw(amount: int): (r: Result<Report, WithdrawError>)
    ensures amount < 0 <==> r.Failure?
    ensures r.Success? ==> BatchValue(r.value.notes) + r.value.leftover == amount
    ensures r.Success? ==> r.value.leftover < 100
    ensures r.Success? ==> (r.value.FailureMessage().Some? <==> r.value.leftover != 0)
    ensures r.Success? ==> FallingBatches(r.value.notes)
    ensures r.Success? ==> forall k :: 0 <= k < |r.value.notes| ==>
      r.value.notes[k].denomination in Denominations
  {
    if amount < 0 then Failure(NegativeAmount)
    else
      var p := Chain(amount, Denominations);
      DispensedKeepsValue(p.steps);
      assert FallingSteps(p.steps) by {
        assert forall i :: 0 <= i < 3 ==> p.steps[i].denomination == Denominations[i];
      }
      DispensedInChainOrder(p.steps);
      DispensedReportsDispensingHandlers(p.steps);
      Success(Report(Dispensed(p.steps), p.leftover))
  }

  /** Because 2000 and 500 are multiples of 100, the chain leaves something over exactly
      when the request is not a multiple of 100, and then the leftover is the request
      modulo 100. */
  lemma FullyDispensedIffMultipleOfHundred(amount: nat)
    ensures Chain(amount, Denominations).leftover == amount % 100
    ensures Chain(amount, Denominations).leftover == 0 <==> amount % 100 == 0
  {
    var p := Chain(amount, Denominations);
    AtmChainUnfolded(amount);
    var c1, c2, c3 := p.steps[0].count, p.steps[1].count, p.steps[2].count;
    ValueOfThree(p.steps[0], p.steps[1], p.steps[2]);
    assert p.steps == [p.steps[0], p.steps[1], p.steps[2]];
    assert amount == (20 * c1 + 5 * c2 + c3) * 100 + p.leftover;
    DivisionIsUnique(amount, 100, 20 * c1 + 5 * c2 + c3, p.leftover);
  }

  /** `Value` over a three-handler chain, unfolded. */
  lemma ValueOfThree(a: HandlerStep, b: HandlerStep, c: HandlerStep)
    ensures Value([a, b, c]) ==
      a.count * a.denomination + b.count * b.denomination + c.count * c.denomination
  {
    assert [c][1..] == [];
    assert Value([c]) == c.count * c.denomination;
    assert [b, c][1..] == [c];
    assert Value([b, c]) == b.count * b.denomination + c.count * c.denomination;
    assert [a, b, c][1..] == [b, c];
  }

  /** The three handlers of the exercise, unfolded: 2000 takes what fits into the
      request, 500 what fits into the rest, and 100 what fits into what 500 passes on. */
  lemma AtmChainUnfolded(amount: nat)
    ensures var r1 := amount % 2000;
            var r2 := r1 % 500;
            Chain(amount, Denominations) ==
              Plan([HandlerStep(2000, amount / 2000, r1), HandlerStep(500, r1 / 500, r2),
                    HandlerStep(100, r2 / 100, r2 % 100)], r2 % 100)
  {
    var ds := Denominations;
    assert ds[1..] == [500, 100];
    assert ds[1..][1..] == [100];
    assert ds[1..][1..][1..] == [];
  }

  /** `Dispensed` of one more handler in front. */
  lemma DispensedCons(h: HandlerStep, t: seq<HandlerStep>)
    ensures Dispensed([h] + t) ==
      (if h.count > 0 then [NoteBatch(h.denomination, h.count)] else []) + Dispensed(t)
  {
    assert ([h] + t)[1..] == t;
  }

  /** A plan that meets the requirements is what a withdrawal through the chain reports. */
  lemma WithdrawFollowsGreedySplit(amount: nat, p: Plan)
    requires IsGreedySplit(amount, Denominations, p)
    ensures Withdraw(amount) == Success(Report(Dispensed(p.steps), p.leftover))
  {
    GreedySplitIsUnique(amount, Denominations, p);
  }

  /** The plan of the three handlers when each of them hands out `c1`, `c2`, `c3` notes. */
  function AtmPlan(c1: nat, r1: nat, c2: nat, r2: nat, c3: nat, leftover: nat): Plan {
    Plan([HandlerStep(2000, c1, r1), HandlerStep(500, c2, r2), HandlerStep(100, c3, leftover)], leftover)
  }

  /** The requirements, spelled out for the three handlers of the exercise. */
  lemma AtmGreedySplit(amount: nat, c1: nat, r1: nat, c2: nat, r2: nat, c3: nat, leftover: nat)
    requires amount == c1 * 2000 + r1 && r1 < 2000
    requires r1 == c2 * 500 + r2 && r2 < 500
    requires r2 == c3 * 100 + leftover && leftover < 100
    ensures IsGreedySplit(amount, Denominations, AtmPlan(c1, r1, c2, r2, c3, leftover))
  {
    var p := AtmPlan(c1, r1, c2, r2, c3, leftover);
    assert Received(amount, p.steps, 0) == amount;
    assert Received(amount, p.steps, 1) == r1;
    assert Received(amount, p.steps, 2) == r2;
    assert Received(amount, p.steps, 3) == leftover;
  }

  /** What a three-handler chain reports when every handler hands out at least one note. */
  lemma DispensedOfThree(a: HandlerStep, b: HandlerStep, c: HandlerStep)
    requires a.count > 0 && b.count > 0 && c.count > 0
    ensures Dispensed([a, b, c]) ==
      [NoteBatch(a.denomination, a.count), NoteBatch(b.denomination, b.count),
       NoteBatch(c.denomination, c.count)]
  {
    DispensedCons(c, []);
    assert [c] + [] == [c];
    DispensedCons(b, [c]);
    assert [b] + [c] == [b, c];
    DispensedCons(a, [b, c]);
    assert [a] + [b, c] == [a, b, c];
  }

  /** The example of the requirements: 3700 is one 2000, three 500 and two 100 notes. */
  lemma Withdraw3700()
    ensures Withdraw(3700) ==
      Success(Report([NoteBatch(2000, 1), NoteBatch(500, 3), NoteBatch(100, 2)], 0))
  {
    AtmGreedySplit(3700, 1, 1700, 3, 200, 2, 0);
    var p := AtmPlan(1, 1700, 3, 200, 2, 0);
    WithdrawFollowsGreedySplit(3700, p);
    DispensedOfThree(p.steps[0], p.steps[1], p.steps[2]);
  }

  /** 3750 dispenses the same notes as 3700 and leaves 50, which prints the failure line. */
  lemma Withdraw3750()
    ensures Withdraw(3750) ==
      Success(Report([NoteBatch(2000, 1), NoteBatch(500, 3), NoteBatch(100, 2)], 50))
    ensures Withdraw(3750).value.FailureMessage() == Some(CannotDispenseMessage)
  {
    AtmGreedySplit(3750, 1, 1750, 3, 250, 2, 50);
    var p := AtmPlan(1, 1750, 3, 250, 2, 50);
    WithdrawFollowsGreedySplit(3750, p);
    DispensedOfThree(p.steps[0], p.steps[1], p.steps[2]);
  }

  /** The first request of the exercise's `main`: 3800 is paid in full. */
  lemma Withdraw3800()
    ensures Withdraw(3800) ==
      Success(Report([NoteBatch(2000, 1), NoteBatch(500, 3), NoteBatch(100, 3)], 0))
  {
    AtmGreedySplit(3800, 1, 1800, 3, 300, 3, 0);
    var p := AtmPlan(1, 1800, 3, 300, 3, 0);
    WithdrawFollowsGreedySplit(3800, p);
    DispensedOfThree(p.steps[0], p.steps[1], p.steps[2]);
  }

  /** The second request of the exercise's `main`: 3850 leaves 50 over. */
  lemma Withdraw3850()
    ensures Withdraw(3850) ==
      Success(Report([NoteBatch(2000, 1), NoteBatch(500, 3), NoteBatch(100, 3)], 50))
  {
    AtmGreedySplit(3850, 1, 1850, 3, 350, 3, 50);
    var p := AtmPlan(1, 1850, 3, 350, 3, 50);
    WithdrawFollowsGreedySplit(3850, p);
    DispensedOfThree(p.steps[0], p.steps[1], p.steps[2]);
  }

  /** A request below the smallest note hands out nothing and leaves the whole request;
      it is fully dispensed only when nothing was requested. */
  lemma WithdrawBelowSmallestNote(amount: nat)
    requires amount < 100
    ensures Withdraw(amount) == Success(Report([], amount))
    ensures Withdraw(amount).value.FullyDispensed() <==> amount == 0
  {
    AtmGreedySplit(amount, 0, amount, 0, amount, 0, amount);
    var p := AtmPlan(0, amount, 0, amount, 0, amount);
    WithdrawFollowsGreedySplit(amount, p);
    NothingDispensed(p.steps);
  }

  /** Handlers that hand out no note report no batch. */
  lemma {:induction false} NothingDispensed(steps: seq<HandlerStep>)
    requires forall i :: 0 <= i < |steps| ==> steps[i].count == 0
    ensures Dispensed(steps) == []
    decreases |steps|
  {
    if |steps| > 0 {
      assert forall i :: 0 <= i < |steps| - 1 ==> steps[1..][i] == steps[i + 1];
      NothingDispensed(steps[1..]);
    }
  }
}
