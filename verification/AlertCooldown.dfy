/**
 What the cooldown decides over whole runs (backend/internal/alert/manager.go:77-95).

 An operation's position in a run of AlertDelivery names it. Times are nanoseconds; the wall clock
 is assumed not to go backwards, and the two readings of one dispatch may differ.
 */
module AlertCooldown {
  import opened Wrappers
  import opened AlertManager
  import opened AlertDelivery

  predicate IsFor(op: Op, key: string) {
    op.Dispatch? && op.alert.key == key
  }

  /** The k-th operation is a dispatch of the key, and it was let through. */
  predicate AcceptedAt(m0: State, ops: seq<Op>, key: string, k: nat)
    requires k < |ops|
  {
    IsFor(ops[k], key) && Before(m0, ops, k).Accepts(key, ops[k].check)
  }

  /** Later dispatches of the key carry later stamps. */
  ghost predicate ClockMonotone(ops: seq<Op>, key: string) {
    forall i, j :: 0 <= i < j < |ops| && IsFor(ops[i], key) && IsFor(ops[j], key) ==> ops[i].stamp <= ops[j].stamp
  }

  // ----- One key's view of the manager -----

  /** The cooldown in force, and when the key last fired. */
  datatype View = View(cooldown: int, last: Option<int>) {
    predicate Clear(check: int) {
      last.Some? ==> check - last.value >= cooldown
    }

    function Then(op: Op, key: string): View {
      if op.SetCooldown? then this.(cooldown := op.cooldown)
      else if IsFor(op, key) && Clear(op.check) then this.(last := Some(op.stamp))
      else this
    }
  }

  function ViewOf(m: State, key: string): View {
    View(m.cooldown, if key in m.lastFired then Some(m.lastFired[key]) else None)
  }

  function Watch(v: View, ops: seq<Op>, key: string): View {
    if ops == [] then v else Watch(v, ops[..|ops| - 1], key).Then(ops[|ops| - 1], key)
  }

  lemma ViewStep(m: State, op: Op, key: string)
    ensures ViewOf(Locked(m, op), key) == ViewOf(m, key).Then(op, key)
  {
    if op.Dispatch? {
      AcceptsIsClear(m, op.alert.key);
    }
  }

  lemma AcceptsIsClear(m: State, key: string)
    ensures forall check :: m.Accepts(key, check) == ViewOf(m, key).Clear(check)
  {
  }

  /** A key never sees more of the manager than its view. */
  lemma {:induction false} WatchIsManager(m0: State, ops: seq<Op>, key: string)
    ensures ViewOf(Run(m0, ops).manager, key) == Watch(ViewOf(m0, key), ops, key)
    ensures forall check :: Run(m0, ops).manager.Accepts(key, check) == Watch(ViewOf(m0, key), ops, key).Clear(check)
  {
    AcceptsIsClear(Run(m0, ops).manager, key);
    if ops != [] {
      var n := |ops| - 1;
      WatchIsManager(m0, ops[..n], key);
      ViewStep(Run(m0, ops[..n]).manager, ops[n], key);
    }
  }

  predicate Passes(v: View, ops: seq<Op>, key: string, k: nat)
    requires k < |ops|
  {
    IsFor(ops[k], key) && Watch(v, ops[..k], key).Clear(ops[k].check)
  }

  /** The remembered time of a key is the stamp of an accepted dispatch, and no accepted one is later. */
  lemma {:induction false} LastIsLatestAccepted(v: View, ops: seq<Op>, key: string)
    requires v.last.None? && ClockMonotone(ops, key)
    ensures var last := Watch(v, ops, key).last;
            && (last.Some? ==> exists j :: 0 <= j < |ops| && Passes(v, ops, key, j) && ops[j].stamp == last.value)
            && (forall j :: 0 <= j < |ops| && Passes(v, ops, key, j) ==> last.Some? && ops[j].stamp <= last.value)
  {
    if ops != [] {
      var n := |ops| - 1;
      var init := ops[..n];
      LastIsLatestAccepted(v, init, key);
      assert forall j :: 0 <= j < n ==> init[..j] == ops[..j];
      var last := Watch(v, init, key).last;
      if Passes(v, ops, key, n) {
        assert Watch(v, ops, key).last == Some(ops[n].stamp);
      } else if last.Some? {
        var j :| 0 <= j < n && Passes(v, init, key, j) && init[j].stamp == last.value;
        assert Passes(v, ops, key, j);
      }
    }
  }

  /**
   A dispatch is let through exactly when every earlier accepted dispatch of its key is at least the
   cooldown in force away; so accepted ones keep that gap, and a suppressed one has an accepted
   one closer than it. Holds for any mix of tests, channel changes and cooldown changes.
   */
  lemma AcceptedIffCooledDown(m0: State, ops: seq<Op>, key: string, k: nat)
    requires key !in m0.lastFired && ClockMonotone(ops, key)
    requires k < |ops| && IsFor(ops[k], key)
    ensures AcceptedAt(m0, ops, key, k) <==>
            forall j :: 0 <= j < k && AcceptedAt(m0, ops, key, j) ==>
                          ops[k].check - ops[j].stamp >= Before(m0, ops, k).cooldown
  {
    var v := ViewOf(m0, key);
    var init := ops[..k];
    forall j | 0 <= j <= k
      ensures AcceptedAt(m0, ops, key, j) == Passes(v, ops, key, j)
    {
      WatchIsManager(m0, ops[..j], key);
    }
    forall j | 0 <= j < k
      ensures Passes(v, ops, key, j) == Passes(v, init, key, j)
    {
      assert init[..j] == ops[..j];
    }
    LastIsLatestAccepted(v, init, key);
    WatchIsManager(m0, init, key);
  }

  // ----- Decisions are local to a key -----

  /** The accept/suppress answers given to the dispatches of a key, in order. */
  function Decisions(m0: State, ops: seq<Op>, key: string): seq<bool> {
    if ops == [] then []
    else
      var n := |ops| - 1;
      var init := Decisions(m0, ops[..n], key);
      if IsFor(ops[n], key) then init + [Run(m0, ops[..n]).manager.Accepts(key, ops[n].check)] else init
  }

  function Answers(v: View, ops: seq<Op>, key: string): seq<bool> {
    if ops == [] then []
    else
      var n := |ops| - 1;
      var init := Answers(v, ops[..n], key);
      if IsFor(ops[n], key) then init + [Watch(v, ops[..n], key).Clear(ops[n].check)] else init
  }

  lemma {:induction false} DecisionsAreAnswers(m0: State, ops: seq<Op>, key: string)
    ensures Decisions(m0, ops, key) == Answers(ViewOf(m0, key), ops, key)
  {
    if ops != [] {
      DecisionsAreAnswers(m0, ops[..|ops| - 1], key);
      WatchIsManager(m0, ops[..|ops| - 1], key);
    }
  }

  /** A run with everything dropped but the key's own dispatches and the cooldown changes. */
  function Relevant(ops: seq<Op>, key: string): seq<Op> {
    if ops == [] then []
    else
      var n := |ops| - 1;
      var init := Relevant(ops[..n], key);
      if IsFor(ops[n], key) || ops[n].SetCooldown? then init + [ops[n]] else init
  }

  lemma AppendOne(v: View, ops: seq<Op>, op: Op, key: string)
    ensures Watch(v, ops + [op], key) == Watch(v, ops, key).Then(op, key)
    ensures Answers(v, ops + [op], key) ==
            var init := Answers(v, ops, key);
            if IsFor(op, key) then init + [Watch(v, ops, key).Clear(op.check)] else init
  {
    assert (ops + [op])[..|ops|] == ops;
  }

  lemma {:induction false} AnswersAreLocal(v: View, ops: seq<Op>, key: string)
    ensures Watch(v, Relevant(ops, key), key) == Watch(v, ops, key)
    ensures Answers(v, Relevant(ops, key), key) == Answers(v, ops, key)
  {
    if ops != [] {
      var n := |ops| - 1;
      var own := Relevant(ops[..n], key);
      AnswersAreLocal(v, ops[..n], key);
      if IsFor(ops[n], key) || ops[n].SetCooldown? {
        AppendOne(v, own, ops[n], key);
      }
    }
  }

  /** Dropping every other key, test, channel change and send leaves the key's decisions as they were. */
  lemma DecisionsAreLocal(m0: State, ops: seq<Op>, key: string)
    ensures Decisions(m0, Relevant(ops, key), key) == Decisions(m0, ops, key)
  {
    DecisionsAreAnswers(m0, ops, key);
    DecisionsAreAnswers(m0, Relevant(ops, key), key);
    AnswersAreLocal(ViewOf(m0, key), ops, key);
  }

  // ----- Constant cooldown: the accepted dispatches are a largest spaced subset -----

  datatype Offer = Offer(check: int, stamp: int)

  function Offers(ops: seq<Op>, key: string): seq<Offer> {
    if ops == [] then []
    else
      var n := |ops| - 1;
      var init := Offers(ops[..n], key);
      if IsFor(ops[n], key) then init + [Offer(ops[n].check, ops[n].stamp)] else init
  }

  function TrueAt(answers: seq<bool>): seq<nat> {
    if answers == [] then []
    else
      var n := |answers| - 1;
      if answers[n] then TrueAt(answers[..n]) + [n] else TrueAt(answers[..n])
  }

  /** The rule of Dispatch on one key's offers: keep an offer iff it is clear of the last one kept. */
  function Greedy(offers: seq<Offer>, cooldown: int): (kept: seq<nat>)
    ensures forall i :: 0 <= i < |kept| ==> kept[i] < |offers|
  {
    if offers == [] then []
    else
      var n := |offers| - 1;
      var kept := Greedy(offers[..n], cooldown);
      if View(cooldown, LastStamp(offers, kept)).Clear(offers[n].check) then kept + [n] else kept
  }

  function LastStamp(offers: seq<Offer>, kept: seq<nat>): Option<int>
    requires forall i :: 0 <= i < |kept| ==> kept[i] < |offers|
  {
    if kept == [] then None else Some(offers[kept[|kept| - 1]].stamp)
  }

  /** A selection of offers, each pair of which is at least the cooldown apart. */
  ghost predicate Spaced(offers: seq<Offer>, cooldown: int, selection: seq<nat>) {
    && (forall i :: 0 <= i < |selection| ==> selection[i] < |offers|)
    && (forall i, j :: 0 <= i < j < |selection| ==>
                         && selection[i] < selection[j]
                         && offers[selection[j]].check - offers[selection[i]].stamp >= cooldown)
  }

  /** The same for neighbours only, which is all that counting needs. */
  predicate Chained(offers: seq<Offer>, cooldown: int, selection: seq<nat>)
    decreases |offers|
  {
    selection != [] ==>
      && offers != []
      && var n, s := |offers| - 1, |selection| - 1;
         if selection[s] == n then
           && Chained(offers[..n], cooldown, selection[..s])
           && (s > 0 ==> selection[s - 1] < n && offers[n].check - offers[selection[s - 1]].stamp >= cooldown)
         else
           Chained(offers[..n], cooldown, selection)
  }

  ghost predicate OfferClock(offers: seq<Offer>) {
    forall i, j :: 0 <= i < j < |offers| ==> offers[i].stamp <= offers[j].stamp
  }

  ghost predicate CooldownUnchanged(ops: seq<Op>) {
    forall i :: 0 <= i < |ops| ==> !ops[i].SetCooldown?
  }

  /** The offers of a run, with the operations they come from. */
  function OfferedAt(ops: seq<Op>, key: string): (at: seq<nat>)
    ensures |at| == |Offers(ops, key)|
    ensures forall i :: 0 <= i < |at| ==>
                          at[i] < |ops| && IsFor(ops[at[i]], key) && Offers(ops, key)[i] == Offer(ops[at[i]].check, ops[at[i]].stamp)
    ensures forall i, j :: 0 <= i < j < |at| ==> at[i] < at[j]
  {
    if ops == [] then []
    else
      var n := |ops| - 1;
      var init := OfferedAt(ops[..n], key);
      if IsFor(ops[n], key) then init + [n] else init
  }

  lemma GreedyAppendOne(answers: seq<bool>, answer: bool, offers: seq<Offer>, offer: Offer, cooldown: int)
    ensures TrueAt(answers + [answer]) == if answer then TrueAt(answers) + [|answers|] else TrueAt(answers)
    ensures var kept := Greedy(offers, cooldown);
            Greedy(offers + [offer], cooldown) ==
            if View(cooldown, LastStamp(offers, kept)).Clear(offer.check) then kept + [|offers|] else kept
  {
    assert (answers + [answer])[..|answers|] == answers;
    assert (offers + [offer])[..|offers|] == offers;
  }

  /** The manager's decisions on a key are the greedy rule applied to that key's offers. */
  lemma {:induction false} AnswersAreGreedy(v: View, ops: seq<Op>, key: string)
    requires v.last.None? && CooldownUnchanged(ops)
    ensures |Answers(v, ops, key)| == |Offers(ops, key)|
    ensures TrueAt(Answers(v, ops, key)) == Greedy(Offers(ops, key), v.cooldown)
    ensures Watch(v, ops, key) ==
            View(v.cooldown, LastStamp(Offers(ops, key), Greedy(Offers(ops, key), v.cooldown)))
  {
    if ops != [] {
      var n := |ops| - 1;
      var init := ops[..n];
      AnswersAreGreedy(v, init, key);
      if IsFor(ops[n], key) {
        GreedyAppendOne(Answers(v, init, key), Watch(v, init, key).Clear(ops[n].check),
                        Offers(init, key), Offer(ops[n].check, ops[n].stamp), v.cooldown);
      }
    }
  }

  lemma {:induction false} GreedyIsSpaced(offers: seq<Offer>, cooldown: int)
    requires OfferClock(offers)
    ensures Spaced(offers, cooldown, Greedy(offers, cooldown))
  {
    if offers != [] {
      var n := |offers| - 1;
      GreedyIsSpaced(offers[..n], cooldown);
    }
  }

  lemma {:induction false} SpacedIsChained(offers: seq<Offer>, cooldown: int, selection: seq<nat>)
    requires Spaced(offers, cooldown, selection)
    ensures Chained(offers, cooldown, selection)
    decreases |offers|
  {
    if selection != [] {
      var n, s := |offers| - 1, |selection| - 1;
      assert forall i :: 0 <= i < s ==> selection[i] < selection[s];
      SpacedIsChained(offers[..n], cooldown, if selection[s] == n then selection[..s] else selection);
    }
  }

  /** No chained selection is larger than the greedy one, nor as large and ending sooner. */
  lemma {:induction false} GreedyStaysAhead(offers: seq<Offer>, cooldown: int, selection: seq<nat>)
    requires OfferClock(offers) && Chained(offers, cooldown, selection)
    ensures |selection| <= |Greedy(offers, cooldown)|
    ensures selection != [] && |selection| == |Greedy(offers, cooldown)| ==>
              selection[|selection| - 1] < |offers|
              && LastStamp(offers, Greedy(offers, cooldown)).value <= offers[selection[|selection| - 1]].stamp
    decreases |offers|
  {
    if selection != [] {
      var n, s := |offers| - 1, |selection| - 1;
      GreedyStaysAhead(offers[..n], cooldown, if selection[s] == n then selection[..s] else selection);
    }
  }

  lemma OffersInOrder(ops: seq<Op>, key: string)
    requires ClockMonotone(ops, key)
    ensures OfferClock(Offers(ops, key))
  {
    var offers, at := Offers(ops, key), OfferedAt(ops, key);
    assert forall i :: 0 <= i < |at| ==> offers[i].stamp == ops[at[i]].stamp;
  }

  /**
   Under a constant cooldown the accepted dispatches of a key are spaced by it, and no other way of
   choosing spaced dispatches of that key notifies more often.
   */
  lemma AcceptedIsLargestSpaced(m0: State, ops: seq<Op>, key: string, selection: seq<nat>)
    requires key !in m0.lastFired && CooldownUnchanged(ops) && ClockMonotone(ops, key)
    ensures Spaced(Offers(ops, key), m0.cooldown, TrueAt(Decisions(m0, ops, key)))
    ensures Spaced(Offers(ops, key), m0.cooldown, selection) ==> |selection| <= |TrueAt(Decisions(m0, ops, key))|
  {
    DecisionsAreAnswers(m0, ops, key);
    AnswersAreGreedy(ViewOf(m0, key), ops, key);
    var offers := Offers(ops, key);
    OffersInOrder(ops, key);
    GreedyIsSpaced(offers, m0.cooldown);
    if Spaced(offers, m0.cooldown, selection) {
      SpacedIsChained(offers, m0.cooldown, selection);
      GreedyStaysAhead(offers, m0.cooldown, selection);
    }
  }

  lemma {:induction false} SpacedSpan(offers: seq<Offer>, cooldown: int, selection: seq<nat>)
    requires Spaced(offers, cooldown, selection) && selection != []
    requires ChecksFirst(offers)
    ensures offers[selection[|selection| - 1]].stamp - offers[selection[0]].stamp >= (|selection| - 1) * cooldown
  {
    if |selection| > 1 {
      var s := |selection| - 1;
      SpacedSpan(offers, cooldown, selection[..s]);
      assert s * cooldown == (s - 1) * cooldown + cooldown;
      assert offers[selection[s]].check - offers[selection[s - 1]].stamp >= cooldown;
    }
  }

  ghost predicate ChecksFirst(offers: seq<Offer>) {
    forall i :: 0 <= i < |offers| ==> offers[i].check <= offers[i].stamp
  }

  lemma OffersCheckFirst(ops: seq<Op>, key: string)
    requires forall i :: 0 <= i < |ops| && IsFor(ops[i], key) ==> ops[i].check <= ops[i].stamp
    ensures ChecksFirst(Offers(ops, key))
  {
    var at := OfferedAt(ops, key);
    assert forall i :: 0 <= i < |at| ==> Offers(ops, key)[i] == Offer(ops[at[i]].check, ops[at[i]].stamp);
  }

  /** A spaced selection has at most length / cooldown + 1 members within a window of some length. */
  lemma SpacedPerWindow(offers: seq<Offer>, cooldown: int, selection: seq<nat>, from: nat, to: nat, length: nat)
    requires Spaced(offers, cooldown, selection) && ChecksFirst(offers) && cooldown > 0
    requires from < to <= |selection|
    ensures offers[selection[to - 1]].stamp - offers[selection[from]].stamp <= length ==> to - from <= length / cooldown + 1
  {
    SpacedSpan(offers, cooldown, selection[from..to]);
    if offers[selection[to - 1]].stamp - offers[selection[from]].stamp <= length {
      AtMostQuotient(to - from - 1, cooldown, length);
    }
  }

  /** Accepted dispatches of a key stamped within a window of some length number at most length / cooldown + 1. */
  lemma AcceptedPerWindow(m0: State, ops: seq<Op>, key: string, from: nat, to: nat, length: nat)
    requires key !in m0.lastFired && CooldownUnchanged(ops) && ClockMonotone(ops, key)
    requires forall i :: 0 <= i < |ops| && IsFor(ops[i], key) ==> ops[i].check <= ops[i].stamp
    requires m0.cooldown > 0
    requires from < to <= |TrueAt(Decisions(m0, ops, key))|
    ensures var offers, accepted := Offers(ops, key), TrueAt(Decisions(m0, ops, key));
            && accepted[from] < |offers| && accepted[to - 1] < |offers|
            && (offers[accepted[to - 1]].stamp - offers[accepted[from]].stamp <= length ==>
                  to - from <= length / m0.cooldown + 1)
  {
    AcceptedIsLargestSpaced(m0, ops, key, []);
    OffersCheckFirst(ops, key);
    SpacedPerWindow(Offers(ops, key), m0.cooldown, TrueAt(Decisions(m0, ops, key)), from, to, length);
  }

  lemma AtMostQuotient(a: nat, d: nat, x: nat)
    requires d > 0 && a * d <= x
    ensures a <= x / d
  {
    var q := x / d;
    assert x < (q + 1) * d;
    if a >= q + 1 {
      MulMonotone(q + 1, a, d);
      assert false;
    }
  }

  lemma MulMonotone(a: nat, b: nat, d: nat)
    requires a <= b
    ensures a * d <= b * d
  {
  }
}
