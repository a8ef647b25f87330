/** Formatting edits applied in place, from last to first so that the offsets stay good. */
module TextEdits {
  datatype Edit = Edit(start: nat, length: nat, newText: string)

  function End(e: Edit): nat {
    e.start + e.length
  }

  // In order, without overlap, and within the text from `from` on.
  predicate WellPlaced(size: nat, edits: seq<Edit>, from: nat) {
    if edits == [] then from <= size
    else from <= edits[0].start && WellPlaced(size, edits[1..], End(edits[0]))
  }

  // All edits made at once: the gaps of the original with the new texts between them.
  function Substituted(text: string, edits: seq<Edit>, from: nat): string
    requires WellPlaced(|text|, edits, from)
  {
    if edits == [] then text[from..]
    else
      InBounds(|text|, edits, from);
      text[from..edits[0].start] + edits[0].newText + Substituted(text, edits[1..], End(edits[0]))
  }

  lemma {:induction false} InBounds(size: nat, edits: seq<Edit>, from: nat)
    requires WellPlaced(size, edits, from)
    ensures from <= size
    ensures forall i :: 0 <= i < |edits| ==> from <= edits[i].start && End(edits[i]) <= size
    decreases |edits|
  {
    if edits != [] {
      InBounds(size, edits[1..], End(edits[0]));
      forall i | 0 <= i < |edits| ensures from <= edits[i].start && End(edits[i]) <= size {
        assert i > 0 ==> edits[i] == edits[1..][i - 1];
      }
    }
  }

  // Where the edits before the i-th end.
  function Before(edits: seq<Edit>, i: nat): nat
    requires i <= |edits|
  {
    if i == 0 then 0 else End(edits[i - 1])
  }

  lemma {:induction false} SuffixPlaced(size: nat, edits: seq<Edit>, from: nat, i: nat)
    requires WellPlaced(size, edits, from) && i <= |edits|
    ensures WellPlaced(size, edits[i..], if i == 0 then from else End(edits[i - 1]))
    decreases i
  {
    if i > 0 {
      SuffixPlaced(size, edits[1..], End(edits[0]), i - 1);
      assert edits[1..][i - 1..] == edits[i..];
    }
  }

  function Splice(content: string, e: Edit): string
    requires End(e) <= |content|
  {
    content[..e.start] + e.newText + content[e.start + e.length..]
  }

  lemma SpliceBehind(text: string, p: nat, e: Edit, tail: string)
    requires p <= e.start && End(e) <= |text|
    ensures End(e) <= |text[..End(e)] + tail|
    ensures Splice(text[..End(e)] + tail, e) == text[..p] + (text[p..e.start] + e.newText + tail)
  {
    var content := text[..End(e)] + tail;
    assert content[..e.start] == text[..e.start] == text[..p] + text[p..e.start];
    assert content[End(e)..] == tail;
  }

  // What the text is once edits i and later have been made.
  ghost function Partly(text: string, edits: seq<Edit>, i: nat): string
    requires WellPlaced(|text|, edits, 0) && i <= |edits|
  {
    SuffixPlaced(|text|, edits, 0, i);
    InBounds(|text|, edits[i..], Before(edits, i));
    text[..Before(edits, i)] + Substituted(text, edits[i..], Before(edits, i))
  }

  lemma PartlyStep(text: string, edits: seq<Edit>, i: nat)
    requires WellPlaced(|text|, edits, 0) && i < |edits|
    ensures End(edits[i]) <= |Partly(text, edits, i + 1)|
    ensures Partly(text, edits, i) == Splice(Partly(text, edits, i + 1), edits[i])
  {
    SuffixPlaced(|text|, edits, 0, i);
    SuffixPlaced(|text|, edits, 0, i + 1);
    InBounds(|text|, edits[i..], Before(edits, i));
    assert edits[i..][0] == edits[i] && edits[i..][1..] == edits[i + 1..];
    SpliceBehind(text, Before(edits, i), edits[i], Substituted(text, edits[i + 1..], End(edits[i])));
  }

  // The loop of the formatter computes the simultaneous substitution.
  method ApplyEdits(text: string, edits: seq<Edit>) returns (content: string)
    requires WellPlaced(|text|, edits, 0)
    ensures content == Substituted(text, edits, 0)
  {
    content := text;
    var i := |edits|;
    assert Partly(text, edits, i) == text by {
      SuffixPlaced(|text|, edits, 0, i);
      InBounds(|text|, edits[i..], Before(edits, i));
    }
    while i > 0
      invariant 0 <= i <= |edits| && content == Partly(text, edits, i)
    {
      i := i - 1;
      var edit := edits[i];
      PartlyStep(text, edits, i);
      content := content[..edit.start] + edit.newText + content[edit.start + edit.length..];
    }
    assert edits[0..] == edits;
  }

  // ---------- the substitution, position by position ----------

  // How far the edits that end at or before q move what follows them.
  function Shift(edits: seq<Edit>, q: nat): int {
    if edits == [] || End(edits[0]) > q then 0
    else |edits[0].newText| - edits[0].length + Shift(edits[1..], q)
  }

  predicate Untouched(edits: seq<Edit>, q: nat) {
    forall i :: 0 <= i < |edits| ==> q < edits[i].start || q >= End(edits[i])
  }

  lemma UntouchedRest(edits: seq<Edit>, q: nat)
    requires edits != [] && Untouched(edits, q)
    ensures Untouched(edits[1..], q)
  {
    assert forall i :: 0 <= i < |edits[1..]| ==> edits[1..][i] == edits[i + 1];
  }

  // The first gap and the first new text, and then the rest.
  lemma Unfolds(text: string, edits: seq<Edit>, from: nat)
    requires WellPlaced(|text|, edits, from) && edits != []
    ensures from <= edits[0].start && End(edits[0]) <= |text| && WellPlaced(|text|, edits[1..], End(edits[0]))
    ensures Substituted(text, edits, from) ==
            (text[from..edits[0].start] + edits[0].newText) + Substituted(text, edits[1..], End(edits[0]))
  {
    InBounds(|text|, edits, from);
  }

  lemma Behind(front: string, rest: string, k: int)
    requires 0 <= k < |rest|
    ensures (front + rest)[|front| + k] == rest[k]
  {
  }

  lemma AllBehind(front: string, rest: string, k: int, n: nat)
    requires 0 <= k && k + n <= |rest|
    ensures (front + rest)[|front| + k..|front| + k + n] == rest[k..k + n]
  {
  }

  lemma InMiddle(gap: string, x: string, rest: string)
    ensures (gap + x + rest)[|gap|..|gap| + |x|] == x
  {
  }

  lemma InFront(gap: string, x: string, rest: string, k: nat)
    requires k < |gap|
    ensures (gap + x + rest)[k] == gap[k]
  {
  }

  // Every character outside the edits is still there, moved by the edits before it.
  lemma {:induction false} GapsUnchanged(text: string, edits: seq<Edit>, from: nat, q: nat)
    requires WellPlaced(|text|, edits, from) && from <= q < |text| && Untouched(edits, q)
    ensures var r, k := Substituted(text, edits, from), q - from + Shift(edits, q); 0 <= k < |r| && r[k] == text[q]
    decreases |edits|
  {
    if edits != [] {
      Unfolds(text, edits, from);
      var gap, e := text[from..edits[0].start], edits[0];
      var rest := Substituted(text, edits[1..], End(e));
      if q >= End(e) {
        UntouchedRest(edits, q);
        GapsUnchanged(text, edits[1..], End(e), q);
        Behind(gap + e.newText, rest, q - End(e) + Shift(edits[1..], q));
      } else {
        assert q < e.start;
        InFront(gap, e.newText, rest, q - from);
      }
    }
  }

  // Nothing is added or lost besides: the text is as long as the edits make it.
  lemma {:induction false} LengthAdds(text: string, edits: seq<Edit>, from: nat)
    requires WellPlaced(|text|, edits, from)
    ensures from <= |text| && |Substituted(text, edits, from)| == |text| - from + Moved(edits, |edits|)
    decreases |edits|
  {
    InBounds(|text|, edits, from);
    if edits != [] {
      Unfolds(text, edits, from);
      LengthAdds(text, edits[1..], End(edits[0]));
    }
  }

  // Every edit's new text stands where its span was, moved by the edits before it.
  lemma {:induction false} NewTextsInPlace(text: string, edits: seq<Edit>, from: nat, i: nat)
    requires WellPlaced(|text|, edits, from) && i < |edits|
    ensures var r, k := Substituted(text, edits, from), edits[i].start - from + Moved(edits, i);
            0 <= k && k + |edits[i].newText| <= |r| && r[k..k + |edits[i].newText|] == edits[i].newText
    decreases |edits|
  {
    Unfolds(text, edits, from);
    var gap, e := text[from..edits[0].start], edits[0];
    var rest := Substituted(text, edits[1..], End(e));
    if i > 0 {
      NewTextsInPlace(text, edits[1..], End(e), i - 1);
      assert edits[1..][i - 1] == edits[i] && Moved(edits, i) == |e.newText| - e.length + Moved(edits[1..], i - 1);
      AllBehind(gap + e.newText, rest, edits[i].start - End(e) + Moved(edits[1..], i - 1), |edits[i].newText|);
    } else {
      InMiddle(gap, e.newText, rest);
    }
  }

  // How far the first i edits move what follows them.
  function Moved(edits: seq<Edit>, i: nat): int
    requires i <= |edits|
  {
    if i == 0 then 0 else |edits[0].newText| - edits[0].length + Moved(edits[1..], i - 1)
  }
}
