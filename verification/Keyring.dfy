/**
 A credential string kept in a system keyring whose entries have a size limit: split into
 pieces with a continuation marker, and put together again.
 */
module Keyring {
  import opened Wrappers

  const CONTINUE_MARKER := "<MORE>"

  type Ring = map<nat, string>      // entry number to password, under one prefix

  predicate EndsWithMarker(s: string) {
    |s| >= |CONTINUE_MARKER| && s[|s| - |CONTINUE_MARKER|..] == CONTINUE_MARKER
  }

  function Strip(s: string): string
    requires EndsWithMarker(s)
  {
    s[..|s| - |CONTINUE_MARKER|]
  }

  // ---------- what is stored and what is read ----------

  // A piece of full length is always marked as continued, even when nothing follows it.
  function Pieces(s: string, step: nat): seq<string>
    requires step > 0
  {
    if s == [] then []
    else if |s| < step then [s]
    else [s[..step] + CONTINUE_MARKER] + Pieces(s[step..], step)
  }

  function Overlay(ring: Ring, at: nat, pieces: seq<string>): Ring
    decreases |pieces|
  {
    if pieces == [] then ring else Overlay(ring[at := pieces[0]], at + 1, pieces[1..])
  }

  function Continued(front: string, rest: Option<string>): Option<string> {
    if rest.None? then None else Some(front + rest.value)
  }

  ghost function Above(ring: Ring, i: nat): set<nat> {
    set k: nat | k in ring && k >= i
  }

  lemma AboveShrinks(ring: Ring, i: nat)
    requires i in ring
    ensures Above(ring, i + 1) < Above(ring, i)
  {
    assert i in Above(ring, i) && i !in Above(ring, i + 1);
  }

  function ReadFrom(ring: Ring, i: nat): Option<string>
    decreases Above(ring, i)
  {
    if i !in ring then None
    else if EndsWithMarker(ring[i]) then
      AboveShrinks(ring, i);
      Continued(Strip(ring[i]), ReadFrom(ring, i + 1))
    else Some(ring[i])
  }

  // How many entry handles a read has opened when it stops.
  function Reach(ring: Ring, i: nat): (n: nat)
    ensures i < n
    decreases Above(ring, i)
  {
    if i in ring && EndsWithMarker(ring[i]) then
      AboveShrinks(ring, i);
      Reach(ring, i + 1)
    else i + 1
  }

  // The last piece is short, so it carries no marker of its own, and does not look like it does.
  predicate Reassembles(s: string, step: nat)
    requires step > 0
  {
    |s| % step != 0 && !EndsWithMarker(s[|s| - |s| % step..])
  }

  // What the pieces alone read as when they do not reassemble: a false marker is lost.
  function Salvaged(s: string, step: nat): string
    requires step > 0 && !Reassembles(s, step)
  {
    if |s| % step == 0 then s else Strip(s)
  }

  // ---------- reading what was stored ----------

  ghost predicate HoldsAt(ring: Ring, at: nat, pieces: seq<string>) {
    forall k: nat :: at <= k < at + |pieces| ==> k in ring && ring[k] == pieces[k - at]
  }

  lemma {:induction false} OverlayHolds(ring: Ring, at: nat, pieces: seq<string>)
    ensures HoldsAt(Overlay(ring, at, pieces), at, pieces)
    ensures forall k: nat :: k < at || k >= at + |pieces| ==> Look(Overlay(ring, at, pieces), k) == Look(ring, k)
    decreases |pieces|
  {
    if pieces != [] {
      var ring' := ring[at := pieces[0]];
      OverlayHolds(ring', at + 1, pieces[1..]);
      var after := Overlay(ring, at, pieces);
      assert Look(after, at) == Look(ring', at);
      forall k: nat | at <= k < at + |pieces| ensures k in after && after[k] == pieces[k - at] {
        if k > at {
          assert pieces[1..][k - (at + 1)] == pieces[k - at];
        }
      }
    }
  }

  // Reading looks only at entries from i on.
  lemma {:induction false} ReadLocal(a: Ring, b: Ring, i: nat)
    requires forall k: nat :: k >= i ==> Look(a, k) == Look(b, k)
    ensures ReadFrom(a, i) == ReadFrom(b, i)
    decreases Above(a, i)
  {
    assert Look(a, i) == Look(b, i);
    if i in a && EndsWithMarker(a[i]) {
      AboveShrinks(a, i);
      ReadLocal(a, b, i + 1);
    }
  }

  lemma MarkerComesOff(s: string)
    ensures EndsWithMarker(s + CONTINUE_MARKER) && Strip(s + CONTINUE_MARKER) == s
  {
    var t := s + CONTINUE_MARKER;
    assert t[|t| - |CONTINUE_MARKER|..] == CONTINUE_MARKER;
  }

  lemma AtLeastOnce(step: nat, d: int)
    requires d >= 1
    ensures step * d >= step
  {
  }

  lemma Distributes(step: nat, a: int, b: int)
    ensures step * (a - b) == step * a - step * b
  {
  }

  lemma ModuloUnique(n: nat, step: nat, q: int, r: nat)
    requires r < step && n == step * q + r
    ensures n % step == r
  {
    var q', r' := n / step, n % step;
    assert n == step * q' + r';
    Distributes(step, q, q');
    Distributes(step, q', q);
    if q > q' {
      AtLeastOnce(step, q - q');
    } else if q < q' {
      AtLeastOnce(step, q' - q);
    }
  }

  lemma Modulo(n: nat, step: nat)
    requires 0 < step <= n
    ensures n % step == (n - step) % step
  {
    Distributes(step, n / step, 1);
    ModuloUnique(n - step, step, n / step - 1, n % step);
  }

  // Cutting one full piece off the front changes nothing about the last piece.
  lemma CutFront(s: string, step: nat)
    requires 0 < step <= |s|
    ensures |s[step..]| % step == |s| % step
    ensures Reassembles(s[step..], step) <==> Reassembles(s, step)
    ensures !Reassembles(s, step) ==> Salvaged(s, step) == s[..step] + Salvaged(s[step..], step)
  {
    var m := |s| % step;
    Modulo(|s|, step);
    AtMost(|s| - step, step);
    SameEnd(s, step, m);
    assert |s[step..]| % step == m;
    if !Reassembles(s, step) {
      SalvagedFront(s, step, m);
    }
  }

  lemma SalvagedFront(s: string, step: nat, m: nat)
    requires 0 < step && step + m <= |s| && |s| % step == m && |s[step..]| % step == m
    requires m == 0 || EndsWithMarker(s[|s| - m..])
    ensures !Reassembles(s, step) && !Reassembles(s[step..], step)
    ensures Salvaged(s, step) == s[..step] + Salvaged(s[step..], step)
  {
    SameEnd(s, step, m);
    if m == 0 {
      assert s == s[..step] + s[step..];
    } else {
      FalseMarker(s, m);
      FalseMarker(s[step..], m);
      StripTail(s, step);
    }
  }

  lemma AtMost(n: nat, step: nat)
    requires step > 0
    ensures n % step <= n
  {
  }

  lemma SameEnd(s: string, step: nat, m: nat)
    requires step + m <= |s|
    ensures s[step..][|s| - step - m..] == s[|s| - m..]
  {
  }

  lemma StripTail(s: string, step: nat)
    requires step <= |s| && EndsWithMarker(s) && EndsWithMarker(s[step..])
    ensures Strip(s) == s[..step] + Strip(s[step..])
  {
  }

  lemma FalseMarker(s: string, m: nat)
    requires m <= |s| && EndsWithMarker(s[|s| - m..])
    ensures EndsWithMarker(s)
  {
    assert s[|s| - m..][m - |CONTINUE_MARKER|..] == s[|s| - |CONTINUE_MARKER|..];
  }

  // The exact law of read after store, over any earlier content: the string itself if it reassembles;
  // otherwise the pieces run on into whatever stale entries follow.
  lemma {:induction false} ReadPieces(ring: Ring, at: nat, s: string, step: nat, end: nat)
    requires step > 0 && HoldsAt(ring, at, Pieces(s, step)) && end == at + |Pieces(s, step)|
    ensures ReadFrom(ring, at) == ReadsAs(s, step, ReadFrom(ring, end))
    decreases |s|
  {
    if s == [] {
      NothingStored(step, ReadFrom(ring, at));
    } else if |s| < step {
      ShortPiece(ring, at, s, step);
    } else {
      LongPiece(ring, at, s, step);
      ReadPieces(ring, at + 1, s[step..], step, end);
      PrependPiece(s, step, ReadFrom(ring, at + 1), ReadFrom(ring, end));
    }
  }

  lemma NothingStored(step: nat, tail: Option<string>)
    requires step > 0
    ensures ReadsAs([], step, tail) == tail
  {
    assert tail.Some? ==> [] + tail.value == tail.value;
  }

  // What reading pieces of s gives when `tail` is what the entries after them read as.
  function ReadsAs(s: string, step: nat, tail: Option<string>): Option<string>
    requires step > 0
  {
    if Reassembles(s, step) then Some(s) else Continued(Salvaged(s, step), tail)
  }

  lemma PrependPiece(s: string, step: nat, rest: Option<string>, tail: Option<string>)
    requires 0 < step <= |s| && rest == ReadsAs(s[step..], step, tail)
    ensures Continued(s[..step], rest) == ReadsAs(s, step, tail)
  {
    CutFront(s, step);
    if Reassembles(s, step) {
      assert s == s[..step] + s[step..];
    } else {
      ContinuedTwice(s[..step], Salvaged(s[step..], step), tail);
    }
  }

  lemma LongPiece(ring: Ring, at: nat, s: string, step: nat)
    requires 0 < step <= |s| && HoldsAt(ring, at, Pieces(s, step))
    ensures HoldsAt(ring, at + 1, Pieces(s[step..], step))
    ensures |Pieces(s, step)| == 1 + |Pieces(s[step..], step)|
    ensures ReadFrom(ring, at) == Continued(s[..step], ReadFrom(ring, at + 1))
  {
    var first, rest := s[..step] + CONTINUE_MARKER, Pieces(s[step..], step);
    assert Pieces(s, step) == [first] + rest;
    assert at in ring && ring[at] == first;
    forall k: nat | at + 1 <= k < at + 1 + |rest| ensures k in ring && ring[k] == rest[k - (at + 1)] {
      assert rest[k - (at + 1)] == Pieces(s, step)[k - at];
    }
    MarkerComesOff(s[..step]);
  }

  lemma ContinuedTwice(a: string, b: string, tail: Option<string>)
    ensures Continued(a, Continued(b, tail)) == Continued(a + b, tail)
  {
    if tail.Some? {
      assert a + (b + tail.value) == a + b + tail.value;
    }
  }

  lemma ShortPiece(ring: Ring, at: nat, s: string, step: nat)
    requires 0 < |s| < step && HoldsAt(ring, at, [s])
    ensures ReadFrom(ring, at) == ReadsAs(s, step, ReadFrom(ring, at + 1))
  {
    assert at in ring && ring[at] == s;
    assert |s| % step == |s|;
    assert s[|s| - |s|..] == s;
  }

  // On an empty keyring, what is read back is the string stored exactly when it reassembles,
  // and nothing at all otherwise.
  lemma ReadAfterStoreOnEmpty(s: string, step: nat)
    requires step > 0
    ensures ReadFrom(Overlay(map[], 0, Pieces(s, step)), 0) == if Reassembles(s, step) then Some(s) else None
  {
    ReadAfterStore(map[], s, step);
    assert ReadFrom(map[], |Pieces(s, step)|) == None;
  }

  // With pieces of four characters, "abcd" is stored as one piece marked as continued and not read back;
  // with pieces of seven, a string that looks like the marker is taken for one.
  lemma FullPieceIsLost()
    ensures ReadFrom(Overlay(map[], 0, Pieces("abcd", 4)), 0) == None
    ensures ReadFrom(Overlay(map[], 0, Pieces("<MORE>", 7)), 0) == None
  {
    ReadAfterStoreOnEmpty("abcd", 4);
    ReadAfterStoreOnEmpty(CONTINUE_MARKER, 7);
    assert CONTINUE_MARKER[0..] == CONTINUE_MARKER;
  }

  // A string that reassembles does so over any stale entries.
  lemma ReadAfterStore(ring: Ring, s: string, step: nat)
    requires step > 0
    ensures ReadFrom(Overlay(ring, 0, Pieces(s, step)), 0) == ReadsAs(s, step, ReadFrom(ring, |Pieces(s, step)|))
  {
    var after := Overlay(ring, 0, Pieces(s, step));
    OverlayHolds(ring, 0, Pieces(s, step));
    ReadPieces(after, 0, s, step, |Pieces(s, step)|);
    ReadLocal(after, ring, 0 + |Pieces(s, step)|);
  }

  lemma {:induction false} PiecesFit(s: string, step: nat)
    requires step > 0
    ensures forall j :: 0 <= j < |Pieces(s, step)| ==> |Pieces(s, step)[j]| <= step + |CONTINUE_MARKER|
    decreases |s|
  {
    if |s| >= step {
      PiecesFit(s[step..], step);
    }
  }

  lemma StoredFits(ring: Ring, s: string, step: nat, limit: nat)
    requires step > 0 && step + |CONTINUE_MARKER| <= limit
    ensures var after := Overlay(ring, 0, Pieces(s, step));
            forall k: nat :: k in after ==> |after[k]| <= limit || Look(ring, k) == Some(after[k])
  {
    var after := Overlay(ring, 0, Pieces(s, step));
    OverlayHolds(ring, 0, Pieces(s, step));
    PiecesFit(s, step);
    forall k: nat | k in after ensures |after[k]| <= limit || Look(ring, k) == Some(after[k]) {
      if k >= |Pieces(s, step)| {
        assert Look(after, k) == Look(ring, k);
      } else {
        assert after[k] == Pieces(s, step)[k - 0];
      }
    }
  }

  // ---------- the storage ----------

  datatype ReadResult = Missing | Failed | Got(s: string)

  class KeyringStorage {
    const limit: nat
    var ring: Ring
    var entries: nat          // handles opened so far

    constructor (limit: nat, ring: Ring)
      requires limit > |CONTINUE_MARKER|
      ensures this.limit == limit && this.ring == ring && entries == 0
    {
      this.limit, this.ring, entries := limit, ring, 0;
    }

    ghost predicate Valid() {
      limit > |CONTINUE_MARKER|
    }

    function Step(): nat
      requires Valid()
    {
      limit - |CONTINUE_MARKER|
    }

    // `broken` are the entries the keyring refuses to serve.
    method Read(broken: set<nat>) returns (r: ReadResult)
      modifies this`entries
      ensures old(entries) <= entries && entries >= 1
      ensures broken == {} ==> r == (if ReadFrom(ring, 0).None? then Missing else Got(ReadFrom(ring, 0).value))
      ensures broken == {} ==> entries == (if old(entries) >= Reach(ring, 0) then old(entries) else Reach(ring, 0))
      ensures r.Got? ==> ReadFrom(ring, 0) == Some(r.s)
      ensures r.Missing? ==> ReadFrom(ring, 0) == None
    {
      var str := "";
      assert ReadFrom(ring, 0).Some? ==> "" + ReadFrom(ring, 0).value == ReadFrom(ring, 0).value;
      var i := 0;
      while true
        invariant ReadFrom(ring, 0) == Continued(str, ReadFrom(ring, i))
        invariant Reach(ring, 0) == Reach(ring, i)
        invariant old(entries) <= entries && (entries == old(entries) || entries == i) && i <= entries
        decreases Above(ring, i)
      {
        if i >= entries {
          entries := i + 1;
        }
        if i in broken {
          return Failed;
        }
        if i !in ring {
          return Missing;
        }
        AboveShrinks(ring, i);
        var next := ring[i];
        if EndsWithMarker(next) {
          ContinuedTwice(str, Strip(next), ReadFrom(ring, i + 1));
          str := str + Strip(next);
        } else {
          return Got(str + next);
        }
        i := i + 1;
      }
    }

    // Stops at the first entry that cannot be set, leaving the earlier ones changed.
    method Store(sealed: string, broken: set<nat>) returns (ok: bool)
      requires Valid()
      modifies this
      ensures ok <==> forall j :: 0 <= j < |Pieces(sealed, Step())| ==> j !in broken
      ensures ok ==> ring == Overlay(old(ring), 0, Pieces(sealed, Step()))
      ensures forall k: nat :: k >= |Pieces(sealed, Step())| ==> Look(ring, k) == Look(old(ring), k)
      ensures ok ==> forall k: nat :: k in ring ==> |ring[k]| <= limit || Look(old(ring), k) == Some(ring[k])
    {
      var step := Step();
      var i, j := 0, 0;
      ghost var all := Pieces(sealed, step);
      while i < |sealed|
        invariant 0 <= i && j <= |all| && (i < |sealed| || j == |all|)
        invariant i <= |sealed| ==> all[j..] == Pieces(sealed[i..], step)
        invariant Overlay(old(ring), 0, all) == Overlay(ring, j, all[j..])
        invariant forall k :: 0 <= k < j ==> k !in broken
        invariant forall k: nat :: k >= |all| ==> Look(ring, k) == Look(old(ring), k)
        decreases |sealed| - i
      {
        if j >= entries {
          entries := j + 1;
        }
        ghost var left := all[j..];
        assert left == Pieces(sealed[i..], step) && left != [] && all[j] == left[0] && all[j + 1..] == left[1..];
        if j in broken {
          return false;
        }
        var cutoff := i + step;
        if cutoff <= |sealed| {
          assert sealed[i..][..step] == sealed[i..cutoff] && sealed[i..][step..] == sealed[cutoff..];
          ring := ring[j := sealed[i..cutoff] + CONTINUE_MARKER];
        } else {
          ring := ring[j := sealed[i..]];
        }
        i, j := cutoff, j + 1;
      }
      StoredFits(old(ring), sealed, step, limit);
      return true;
    }

    // Deletes every entry a handle exists for, having first opened those a read comes across.
    method Clear(broken: set<nat>) returns (ok: bool)
      modifies this
      ensures ok ==> 0 !in ring && entries == 0
      ensures ok ==> forall k: nat :: k in ring ==> k in old(ring) && ring[k] == old(ring)[k]
      ensures ok && broken == {} ==> forall k: nat ::
        Look(ring, k) == if k < old(entries) || k < Reach(old(ring), 0) then None else Look(old(ring), k)
      ensures broken == {} && old(entries) == 0 ==> (ok <==> ReadFrom(old(ring), 0).Some?)
    {
      var _ := Read(broken);
      FirstMissing(ring, 0);
      ghost var before, n := ring, entries;
      for i := 0 to entries
        invariant entries == n && ring.Keys <= before.Keys && (forall k: nat :: k in ring ==> ring[k] == before[k])
        invariant (forall k: nat :: k >= i ==> Look(ring, k) == Look(before, k))
        invariant forall k :: 0 <= k < i ==> k in before && k !in ring
      {
        assert Look(ring, i as nat) == Look(before, i as nat);
        if i in broken || i !in ring {
          return false;
        }
        ring := ring - {i};
      }
      entries := 0;
      return true;
    }
  }

  // A read finds something exactly when every entry it opened is there.
  lemma {:induction false} FirstMissing(ring: Ring, i: nat)
    ensures ReadFrom(ring, i).Some? <==> forall k :: i <= k < Reach(ring, i) ==> k in ring
    decreases Above(ring, i)
  {
    if i in ring && EndsWithMarker(ring[i]) {
      AboveShrinks(ring, i);
      FirstMissing(ring, i + 1);
    }
  }
}
