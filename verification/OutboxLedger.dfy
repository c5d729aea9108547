/**
 The outbox as a ledger over interleaved opens, appends and acks: which payloads are
 pending is what was pending, plus what was appended, minus what was acknowledged.
 */
module OutboxLedger {
  import opened Records
  import opened Storage
  import opened Normalization

  /** Every payload some entry stands for. */
  function Pending(s: State): (pending: set<Payload>)
    ensures forall p :: p in pending <==> Pends(s.rows, s.updates, p)
  {
    set k | k in s.rows && Resolved(s.updates, s.rows[k]).Some? :: Resolved(s.updates, s.rows[k]).value
  }

  /** The payloads all of whose entries are acknowledged. */
  function Delivered(s: State, ids: set<Digest>): set<Payload> {
    set p | p in Pending(s) && forall k :: k in s.rows && Resolved(s.updates, s.rows[k]) == Some(p) ==> k in ids
  }

  /** The entry an append overwrites, if any, is for a payload that stays pending. */
  ghost predicate OverwritesNothing(s: State, step: Step) {
    step.Append? ==>
      var d := Checksum(step.p);
      || d !in s.rows
      || Resolved(s.updates, s.rows[d]).None?
      || Resolved(s.updates, s.rows[d]) == Some(step.p)
      || exists k :: k in s.rows && k != d && Resolved(s.updates, s.rows[k]) == Resolved(s.updates, s.rows[d])
  }

  function Booked(pending: set<Payload>, s: State, step: Step): set<Payload> {
    match step
    case Append(p, _, _) => pending + {p}
    case Acknowledged(ids, _) => pending - Delivered(s, ids)
    case _ => pending
  }

  // ----------------------------------------------------------------------- one step

  lemma RewriteBooks(s: State, step: Step)
    requires Inv(s) && Enabled(s, step) && step.Rewrite?
    ensures Pending(Next(s, step)) == Pending(s)
  {
    hide Pends, MisKeyedInspected, Rewritten;
    var t := Next(s, step);
    forall p ensures p in Pending(t) <==> p in Pending(s) {
      RewriteNormalizes(s.rows, s.updates, s.lists[step.opener], p);
    }
  }

  lemma AppendBooksIff(s: State, step: Step)
    requires Enabled(s, step) && step.Append?
    ensures Pending(Next(s, step)) == Pending(s) + {step.p} <==> OverwritesNothing(s, step)
  {
    AppendKeepsPendingIff(s, step);
    AppendAddsOnly(s, step);
  }

  lemma AppendAddsOnly(s: State, step: Step)
    requires Enabled(s, step) && step.Append?
    ensures step.p in Pending(Next(s, step)) && Pending(Next(s, step)) <= Pending(s) + {step.p}
  {
    hide Pending;
    var t, d := Next(s, step), Checksum(step.p);
    assert Resolved(t.updates, t.rows[d]) == Some(step.p);
    forall q | q in Pending(t) ensures q in Pending(s) + {step.p} {
      var k :| k in t.rows && Resolved(t.updates, t.rows[k]) == Some(q);
      if k != d {
        assert Resolved(s.updates, s.rows[k]) == Some(q);
      }
    }
    assert Pends(t.rows, t.updates, step.p);
  }

  lemma AckBooks(s: State, step: Step)
    requires Enabled(s, step) && step.Acknowledged?
    ensures Pending(Next(s, step)) == Pending(s) - Delivered(s, step.ids)
  {
    hide Pending;
    var t := Next(s, step);
    forall k | k in t.rows ensures Resolved(t.updates, t.rows[k]) == Resolved(s.updates, s.rows[k]) {
    }
    forall p ensures p in Pending(t) <==> p in Pending(s) - Delivered(s, step.ids) {
      if p in Pending(t) {
        var k :| k in t.rows && Resolved(t.updates, t.rows[k]) == Some(p);
        assert k in s.rows && k !in step.ids;
      }
      if p in Pending(s) - Delivered(s, step.ids) {
        var k :| k in s.rows && Resolved(s.updates, s.rows[k]) == Some(p) && k !in step.ids;
        assert k in t.rows;
      }
    }
  }

  /** Every step is booked exactly, except an append over the last entry of another payload. */
  lemma StepBooksIff(s: State, step: Step)
    requires Inv(s) && Enabled(s, step)
    ensures Pending(Next(s, step)) == Booked(Pending(s), s, step) <==> OverwritesNothing(s, step)
  {
    hide Inv, Enabled, Pending, Delivered;
    match step
    case Inspect(_, _) => assert Pending(Next(s, step)) == Pending(s) by { SameRows(s, Next(s, step)); }
    case Rewrite(_) => RewriteBooks(s, step);
    case Append(_, _, _) => AppendBooksIff(s, step);
    case Acknowledged(_, _) => AckBooks(s, step);
  }

  lemma SameRows(s: State, t: State)
    requires s.rows == t.rows && s.updates == t.updates
    ensures Pending(s) == Pending(t)
  {
  }

  // ------------------------------------------------------------------------ all runs

  /** The books over the first `n` steps of a run, from what was pending at its start. */
  function Balance(states: seq<State>, steps: seq<Step>, from: nat, n: nat): set<Payload>
    requires from <= n <= |steps| && |states| == |steps| + 1
    decreases n
  {
    if n == from then Pending(states[from]) else Booked(Balance(states, steps, from, n - 1), states[n - 1], steps[n - 1])
  }

  /** While no append overwrites the last entry of another payload, the outbox is its books. */
  lemma {:induction false} LedgerBalances(states: seq<State>, steps: seq<Step>, from: nat, n: nat)
    requires IsRun(states, steps) && from <= n <= |steps|
    requires forall i :: from <= i < n ==> OverwritesNothing(states[i], steps[i])
    ensures Pending(states[n]) == Balance(states, steps, from, n)
    decreases n
  {
    hide Enabled, Next, Inv, Pending, Booked, OverwritesNothing;
    if from < n {
      LedgerBalances(states, steps, from, n - 1);
      RunKeepsInv(states, steps, n - 1);
      StepBooksIff(states[n - 1], steps[n - 1]);
    }
  }

  lemma WellKeyedOverwritesNothing(s: State, step: Step)
    requires WellKeyed(s.rows, s.updates)
    ensures OverwritesNothing(s, step)
  {
    if step.Append? && Checksum(step.p) in s.rows {
      assert WellKeyedRow(s.updates, Checksum(step.p), s.rows[Checksum(step.p)]);
    }
  }

  /** In a content-addressed outbox an ack delivers exactly the payloads it names. */
  lemma WellKeyedDelivers(s: State, ids: set<Digest>)
    requires WellKeyed(s.rows, s.updates)
    ensures forall p :: p in Delivered(s, ids) <==> Checksum(p) in s.rows && Checksum(p) in ids
  {
    forall p ensures p in Delivered(s, ids) <==> Checksum(p) in s.rows && Checksum(p) in ids {
      KeysArePayloads(s.rows, s.updates, p);
      if Checksum(p) in s.rows {
        assert WellKeyedRow(s.updates, Checksum(p), s.rows[Checksum(p)]);
      }
      forall k | k in s.rows && Resolved(s.updates, s.rows[k]) == Some(p) ensures k == Checksum(p) {
        assert WellKeyedRow(s.updates, k, s.rows[k]);
      }
    }
  }

  /** Once any open has rewritten the outbox the books are exact without a condition. */
  lemma RewrittenLedgerBalances(states: seq<State>, steps: seq<Step>, rewrite: nat, from: nat, n: nat)
    requires IsRun(states, steps) && rewrite < from <= n <= |steps| && steps[rewrite].Rewrite?
    ensures Pending(states[n]) == Balance(states, steps, from, n)
  {
    hide Enabled, Next, Inv, Pending, OverwritesNothing, WellKeyed, Balance;
    forall i | from <= i < n ensures OverwritesNothing(states[i], steps[i]) {
      InterleavedOpensConverge(states, steps, rewrite, i);
      WellKeyedOverwritesNothing(states[i], steps[i]);
    }
    LedgerBalances(states, steps, from, n);
  }
}
