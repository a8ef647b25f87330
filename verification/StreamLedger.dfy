/** The account of what a stream accepted and what of it reached the far end. */
module StreamLedger {
  import opened Sequences
  import opened StreamRecords

  // What became of an accepted segment: n of its bytes were written, or it was dropped unattempted.
  datatype Fate = Sent(n: nat) | Dropped

  function Prefix(segment: Segment, n: nat): Segment {
    if n <= |segment| then segment[..n] else segment
  }

  // The bytes a stream's far end sees, given the fates of its first segments.
  function Wire(accepted: seq<Segment>, fates: seq<Fate>): seq<byte>
    requires |fates| <= |accepted|
  {
    if fates == [] then []
    else
      var n := |fates| - 1;
      Wire(accepted, fates[..n]) + (if fates[n].Sent? then Prefix(accepted[n], fates[n].n) else [])
  }

  predicate Whole(accepted: seq<Segment>, fates: seq<Fate>, i: nat)
    requires i < |fates| <= |accepted|
  {
    fates[i] == Sent(|accepted[i]|)
  }

  // A segment is only ever dropped right behind one that was cut short or dropped.
  ghost predicate DropsFollowFailures(accepted: seq<Segment>, fates: seq<Fate>)
    requires |fates| <= |accepted|
  {
    forall i :: 0 <= i < |fates| && fates[i] == Dropped ==> i > 0 && !Whole(accepted, fates, i - 1)
  }

  lemma {:induction false} WireIgnoresTail(accepted: seq<Segment>, more: seq<Segment>, fates: seq<Fate>)
    requires |fates| <= |accepted|
    ensures Wire(accepted + more, fates) == Wire(accepted, fates)
  {
    if fates != [] {
      WireIgnoresTail(accepted, more, fates[..|fates| - 1]);
    }
  }

  lemma WireSent(accepted: seq<Segment>, fates: seq<Fate>, f: Fate)
    requires |fates| < |accepted|
    ensures Wire(accepted, fates + [f]) ==
            Wire(accepted, fates) + (if f.Sent? then Prefix(accepted[|fates|], f.n) else [])
  {
    assert (fates + [f])[..|fates|] == fates;
  }

  lemma {:induction false} WireWhole(accepted: seq<Segment>, fates: seq<Fate>)
    requires |fates| <= |accepted|
    requires forall i :: 0 <= i < |fates| ==> Whole(accepted, fates, i)
    ensures Wire(accepted, fates) == Flatten(accepted[..|fates|])
  {
    if fates != [] {
      var n := |fates| - 1;
      assert forall i :: 0 <= i < n ==> Whole(accepted, fates, i) && Whole(accepted, fates[..n], i);
      WireWhole(accepted, fates[..n]);
      assert Whole(accepted, fates, n);
      assert accepted[..n + 1][..n] == accepted[..n];
    }
  }

  // One more fate leaves the earlier ones as they were.
  lemma OneFate(accepted: seq<Segment>, fates: seq<Fate>, f: Fate)
    requires |fates| < |accepted| && DropsFollowFailures(accepted, fates) && f.Sent?
    ensures DropsFollowFailures(accepted, fates + [f])
    ensures forall i :: 0 <= i < |fates| ==> Whole(accepted, fates + [f], i) == Whole(accepted, fates, i)
  {
    forall i | 0 <= i < |fates| ensures Whole(accepted, fates + [f], i) == Whole(accepted, fates, i) {
      assert (fates + [f])[i] == fates[i];
    }
    forall i | 0 <= i < |fates| + 1 && (fates + [f])[i] == Dropped
      ensures i > 0 && !Whole(accepted, fates + [f], i - 1)
    {
      assert fates[i] == Dropped;
    }
  }

  // The account of one stream: what was accepted so far, what became of it, what was sent.
  datatype Ledger = Ledger(accepted: seq<Segment>, fates: seq<Fate>, sent: seq<byte>)

  ghost predicate Accounted(l: Ledger, errorFree: bool) {
    && |l.fates| <= |l.accepted|
    && l.sent == Wire(l.accepted, l.fates)
    && DropsFollowFailures(l.accepted, l.fates)
    && (errorFree ==> forall i :: 0 <= i < |l.fates| ==> Whole(l.accepted, l.fates, i))
  }

  ghost predicate Balanced(l: Ledger, errorFree: bool, pending: seq<Segment>) {
    Accounted(l, errorFree) && l.accepted[|l.fates|..] == pending
  }

  lemma AcceptMore(l: Ledger, errorFree: bool, pending: seq<Segment>, more: seq<Segment>)
    requires Balanced(l, errorFree, pending)
    ensures Balanced(l.(accepted := l.accepted + more), errorFree, pending + more)
  {
    var accepted := l.accepted + more;
    WireIgnoresTail(l.accepted, more, l.fates);
    assert accepted[|l.fates|..] == pending + more;
    assert forall i :: 0 <= i < |l.fates| ==> Whole(l.accepted, l.fates, i) == Whole(accepted, l.fates, i);
  }

  // As long as nothing failed, what was sent and what is pending make up what was accepted.
  lemma SentPlusPending(l: Ledger, pending: seq<Segment>)
    requires Balanced(l, true, pending)
    ensures l.sent + Flatten(pending) == Flatten(l.accepted)
  {
    WireWhole(l.accepted, l.fates);
    FlattenConcat(l.accepted[..|l.fates|], pending);
    assert l.accepted == l.accepted[..|l.fates|] + pending;
  }

  lemma SendOne(l: Ledger, errorFree: bool, pending: seq<Segment>)
    requires Balanced(l, errorFree, pending) && pending != []
    ensures Balanced(l.(fates := l.fates + [Sent(|pending[0]|)], sent := l.sent + pending[0]), errorFree, pending[1..])
  {
    var fates := l.fates + [Sent(|pending[0]|)];
    assert l.accepted[|l.fates|] == pending[0];
    WireSent(l.accepted, l.fates, fates[|l.fates|]);
    assert l.accepted[|fates|..] == pending[1..];
    OneFate(l.accepted, l.fates, fates[|l.fates|]);
  }

  // The first segment of the batch is cut short after n bytes.
  lemma CutShort(l: Ledger, pending: seq<Segment>, n: nat)
    requires Balanced(l, false, pending) && pending != [] && n < |pending[0]|
    ensures var l' := l.(fates := l.fates + [Sent(n)], sent := l.sent + pending[0][..n]);
            Balanced(l', false, pending[1..]) && !Whole(l'.accepted, l'.fates, |l.fates|)
  {
    var k := |l.fates|;
    assert l.accepted[k] == pending[0];
    assert l.accepted[k + 1..] == pending[1..];
    WireSent(l.accepted, l.fates, Sent(n));
    OneFate(l.accepted, l.fates, Sent(n));
  }

  lemma DropOne(l: Ledger, pending: seq<Segment>)
    requires Balanced(l, false, pending) && pending != []
    requires l.fates != [] && !Whole(l.accepted, l.fates, |l.fates| - 1)
    ensures Balanced(l.(fates := l.fates + [Dropped]), false, pending[1..])
  {
    var m, fates := |l.fates|, l.fates + [Dropped];
    WireSent(l.accepted, l.fates, Dropped);
    assert l.accepted[m + 1..] == pending[1..];
    forall i | 0 <= i < m + 1 && fates[i] == Dropped ensures i > 0 && !Whole(l.accepted, fates, i - 1) {
      assert i < m ==> l.fates[i] == Dropped;
      assert i > 0 ==> Whole(l.accepted, fates, i - 1) == Whole(l.accepted, l.fates, i - 1);
    }
  }

  // The rest of the batch is dropped.
  lemma {:induction false} DropRest(l: Ledger, pending: seq<Segment>, k: nat)
    requires Balanced(l, false, pending) && k <= |pending|
    requires l.fates != [] && !Whole(l.accepted, l.fates, |l.fates| - 1)
    ensures Balanced(l.(fates := l.fates + seq(k, _ => Dropped)), false, pending[k..])
    decreases k
  {
    if k == 0 {
      assert l.fates + seq(0, _ => Dropped) == l.fates;
    } else {
      DropOne(l, pending);
      DropRest(l.(fates := l.fates + [Dropped]), pending[1..], k - 1);
      assert seq(k, _ => Dropped) == [Dropped] + seq(k - 1, _ => Dropped);
      OneThenMore(l.fates, Dropped, seq(k - 1, _ => Dropped));
      assert pending[1..][k - 1..] == pending[k..];
    }
  }

  lemma BreakOff(l: Ledger, pending: seq<Segment>, n: nat, batch: nat)
    requires Balanced(l, false, pending) && 0 < batch <= |pending| && n < |pending[0]|
    ensures Balanced(l.(fates := l.fates + ([Sent(n)] + seq(batch - 1, _ => Dropped)),
                        sent := l.sent + pending[0][..n]),
                     false, pending[batch..])
  {
    var l' := l.(fates := l.fates + [Sent(n)], sent := l.sent + pending[0][..n]);
    CutShort(l, pending, n);
    DropRest(l', pending[1..], batch - 1);
    OneThenMore(l.fates, Sent(n), seq(batch - 1, _ => Dropped));
    assert pending[1..][batch - 1..] == pending[batch..];
  }

  lemma OneThenMore<T>(a: seq<T>, x: T, b: seq<T>)
    ensures a + ([x] + b) == a + [x] + b
  {
  }

  // ---------- the same, with what is pending split into the batch in hand and the queue ----------

  lemma Queued(l: Ledger, errorFree: bool, items: seq<Segment>, q: seq<Segment>, more: seq<Segment>)
    requires Balanced(l, errorFree, items + q)
    ensures Balanced(l.(accepted := l.accepted + more), errorFree, items + (q + more))
  {
    AcceptMore(l, errorFree, items + q, more);
    assert items + q + more == items + (q + more);
  }

  lemma ItemSent(l: Ledger, errorFree: bool, items: seq<Segment>, q: seq<Segment>)
    requires Balanced(l, errorFree, items + q) && items != []
    ensures Balanced(l.(fates := l.fates + [Sent(|items[0]|)], sent := l.sent + items[0]), errorFree, items[1..] + q)
  {
    SendOne(l, errorFree, items + q);
    assert (items + q)[1..] == items[1..] + q;
  }

  lemma ItemFailed(l: Ledger, items: seq<Segment>, q: seq<Segment>, n: nat)
    requires Balanced(l, false, items + q) && items != [] && n < |items[0]|
    ensures Balanced(l.(fates := l.fates + ([Sent(n)] + seq(|items| - 1, _ => Dropped)),
                        sent := l.sent + items[0][..n]),
                     false, [] + q)
  {
    BreakOff(l, items + q, n, |items|);
    assert (items + q)[|items|..] == [] + q;
  }
}
