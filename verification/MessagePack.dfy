/**
 One parser the framing theorem applies to: the extent of the first MessagePack value of a
 buffer, over the format's whole table of leading bytes. With it, an encoder for the values
 RPC messages are made of.
 */
module MessagePack {
  import opened Sequences
  import opened Framing

  // ---------- big-endian numbers ----------

  function Pow256(k: nat): nat {
    if k == 0 then 1 else 256 * Pow256(k - 1)
  }

  function BigEndian(n: nat, k: nat): (r: seq<byte>)
    ensures |r| == k
  {
    if k == 0 then [] else BigEndian(n / 256, k - 1) + [n % 256]
  }

  function ReadBigEndian(b: seq<byte>): nat {
    if b == [] then 0 else ReadBigEndian(b[..|b| - 1]) * 256 + b[|b| - 1]
  }

  lemma {:induction false} BigEndianInverse(n: nat, k: nat)
    requires n < Pow256(k)
    ensures ReadBigEndian(BigEndian(n, k)) == n
  {
    if k > 0 {
      BigEndianInverse(n / 256, k - 1);
      assert BigEndian(n, k)[..k - 1] == BigEndian(n / 256, k - 1);
    }
  }

  // ---------- the extent of a value ----------

  // What a leading byte stands for: a fixed payload, a payload or a number of items whose count
  // is in the next few bytes, or nothing at all.
  datatype Shape =
    | Fixed(payload: nat, items: nat)
    | Counted(digits: nat, extra: nat)           // extra: the type byte of an extension
    | Collection(digits: nat, perEntry: nat)
    | Reserved

  function ShapeOf(m: byte): Shape {
    if m < 0x80 then Fixed(0, 0)                                 // positive fixint
    else if m < 0x90 then Fixed(0, 2 * (m - 0x80))               // fixmap
    else if m < 0xa0 then Fixed(0, m - 0x90)                     // fixarray
    else if m < 0xc0 then Fixed(m - 0xa0, 0)                     // fixstr
    else if m == 0xc1 then Reserved
    else if m < 0xc4 then Fixed(0, 0)                            // nil, false, true
    else if m < 0xc7 then Counted(if m == 0xc4 then 1 else if m == 0xc5 then 2 else 4, 0)   // bin
    else if m < 0xca then Counted(if m == 0xc7 then 1 else if m == 0xc8 then 2 else 4, 1)   // ext
    else if m == 0xca then Fixed(4, 0)                           // float 32
    else if m == 0xcb then Fixed(8, 0)                           // float 64
    else if m < 0xd0 then                                        // uint
      Fixed(if m == 0xcc then 1 else if m == 0xcd then 2 else if m == 0xce then 4 else 8, 0)
    else if m < 0xd4 then Fixed(if m == 0xd0 then 1 else if m == 0xd1 then 2 else if m == 0xd2 then 4 else 8, 0)  // int
    else if m < 0xd9 then
      // fixext
      Fixed(1 + (if m == 0xd4 then 1 else if m == 0xd5 then 2 else if m == 0xd6 then 4
                 else if m == 0xd7 then 8 else 16), 0)
    else if m < 0xdc then Counted(if m == 0xd9 then 1 else if m == 0xda then 2 else 4, 0)   // str
    else if m < 0xde then Collection(if m == 0xdc then 2 else 4, 1)                         // array
    else if m < 0xe0 then Collection(if m == 0xde then 2 else 4, 2)                         // map
    else Fixed(0, 0)                                             // negative fixint
  }

  // The bytes up to the items of a collection, or to the end of any other value, and the items to come.
  datatype Head = Short | Bad | Head(size: nat, items: nat)

  function HeadAt(b: seq<byte>, pos: nat): (h: Head)
    requires pos < |b|
    ensures h.Head? ==> h.size > 0
  {
    match ShapeOf(b[pos])
    case Fixed(payload, items) => Head(1 + payload, items)
    case Counted(digits, extra) =>
      if pos + 1 + digits > |b| then Short
      else Head(1 + digits + extra + ReadBigEndian(b[pos + 1..pos + 1 + digits]), 0)
    case Collection(digits, perEntry) =>
      if pos + 1 + digits > |b| then Short
      else Head(1 + digits, perEntry * ReadBigEndian(b[pos + 1..pos + 1 + digits]))
    case Reserved => Bad
  }

  datatype Scanned = More | Broken | End(pos: nat)

  // Where `pending` consecutive values end.
  function Scan(b: seq<byte>, pos: nat, pending: nat): (r: Scanned)
    requires pos <= |b|
    ensures r.End? ==> pos <= r.pos <= |b| && (pending > 0 ==> pos < r.pos)
    decreases |b| - pos
  {
    if pending == 0 then End(pos)
    else if pos == |b| then More
    else
      match HeadAt(b, pos)
      case Short => More
      case Bad => Broken
      case Head(size, items) => if pos + size > |b| then More else Scan(b, pos + size, pending - 1 + items)
  }

  // The whole of the first value, if it is there.
  function ParseValue(b: seq<byte>): Parsed<seq<byte>> {
    match Scan(b, 0, 1)
    case More => NeedMore
    case Broken => Invalid
    case End(n) => Parsed(b[..n], n)
  }

  lemma HeadStable(b: seq<byte>, more: seq<byte>, pos: nat)
    requires pos < |b| && !HeadAt(b, pos).Short?
    ensures HeadAt(b + more, pos) == HeadAt(b, pos)
  {
    var s := ShapeOf(b[pos]);
    if s.Counted? || s.Collection? {
      assert (b + more)[pos + 1..pos + 1 + s.digits] == b[pos + 1..pos + 1 + s.digits];
    }
  }

  lemma {:induction false} ScanStable(b: seq<byte>, more: seq<byte>, pos: nat, pending: nat)
    requires pos <= |b| && !Scan(b, pos, pending).More?
    ensures Scan(b + more, pos, pending) == Scan(b, pos, pending)
    decreases |b| - pos
  {
    if pending > 0 {
      HeadStable(b, more, pos);
      var h := HeadAt(b, pos);
      if h.Head? {
        ScanStable(b, more, pos + h.size, pending - 1 + h.items);
      }
    }
  }

  lemma ParseValueSelfDelimiting()
    ensures SelfDelimiting(ParseValue)
  {
    forall b: seq<byte>, more: seq<byte> | !ParseValue(b).NeedMore? ensures ParseValue(b + more) == ParseValue(b) {
      ScanStable(b, more, 0, 1);
      if ParseValue(b).Parsed? {
        assert (b + more)[..ParseValue(b).len] == b[..ParseValue(b).len];
      }
    }
  }

  // ---------- encoding ----------

  datatype Value =
    | Nil
    | Bool(b: bool)
    | Uint(n: nat)
    | Neg(n: nat)                   // the integer -n
    | Float(bits: seq<byte>)        // of 4 or 8 bytes
    | Str(utf8: seq<byte>)
    | Bin(bytes: seq<byte>)
    | Ext(kind: byte, data: seq<byte>)
    | Array(items: seq<Value>)
    | Map(pairs: seq<Value>)        // keys and values alternate

  predicate Encodable(v: Value)
    decreases v
  {
    match v
    case Nil => true
    case Bool(_) => true
    case Uint(n) => n < 0x1_0000_0000_0000_0000
    case Neg(n) => 0 < n <= 0x8000_0000_0000_0000
    case Float(bits) => |bits| == 4 || |bits| == 8
    case Ext(_, data) => |data| < 0x1_0000_0000
    case Str(s) => |s| < 0x1_0000_0000
    case Bin(s) => |s| < 0x1_0000_0000
    case Array(items) => |items| < 0x1_0000_0000 && AllEncodable(items)
    case Map(pairs) => |pairs| % 2 == 0 && |pairs| / 2 < 0x1_0000_0000 && AllEncodable(pairs)
  }

  predicate AllEncodable(vs: seq<Value>)
    decreases vs
  {
    vs == [] || (Encodable(vs[0]) && AllEncodable(vs[1..]))
  }

  function Digits(marker: byte, n: nat, k: nat): seq<byte> {
    [marker] + BigEndian(n, k)
  }

  // The leading bytes of an extension, up to its type.
  function ExtLead(n: nat): seq<byte> {
    if n == 1 then [0xd4]
    else if n == 2 then [0xd5]
    else if n == 4 then [0xd6]
    else if n == 8 then [0xd7]
    else if n == 16 then [0xd8]
    else if n < 0x100 then Digits(0xc7, n, 1)
    else if n < 0x1_0000 then Digits(0xc8, n, 2)
    else Digits(0xc9, n, 4)
  }

  // The leading bytes of a value, in the shortest form the format has.
  function Lead(v: Value): seq<byte>
    requires Encodable(v)
  {
    match v
    case Nil => [0xc0]
    case Bool(b) => [if b then 0xc3 else 0xc2]
    case Uint(n) =>
      if n < 0x80 then [n]
      else if n < 0x100 then Digits(0xcc, n, 1)
      else if n < 0x1_0000 then Digits(0xcd, n, 2)
      else if n < 0x1_0000_0000 then Digits(0xce, n, 4)
      else Digits(0xcf, n, 8)
    case Neg(n) =>
      if n <= 32 then [0x100 - n]
      else if n <= 0x80 then Digits(0xd0, 0x100 - n, 1)
      else if n <= 0x8000 then Digits(0xd1, 0x1_0000 - n, 2)
      else if n <= 0x8000_0000 then Digits(0xd2, 0x1_0000_0000 - n, 4)
      else Digits(0xd3, 0x1_0000_0000_0000_0000 - n, 8)
    case Float(bits) => [if |bits| == 4 then 0xca else 0xcb]
    case Ext(kind, data) => ExtLead(|data|) + [kind]
    case Str(s) =>
      if |s| < 32 then [0xa0 + |s|]
      else if |s| < 0x100 then Digits(0xd9, |s|, 1)
      else if |s| < 0x1_0000 then Digits(0xda, |s|, 2)
      else Digits(0xdb, |s|, 4)
    case Bin(s) =>
      if |s| < 0x100 then Digits(0xc4, |s|, 1)
      else if |s| < 0x1_0000 then Digits(0xc5, |s|, 2)
      else Digits(0xc6, |s|, 4)
    case Array(items) =>
      if |items| < 16 then [0x90 + |items|]
      else if |items| < 0x1_0000 then Digits(0xdc, |items|, 2)
      else Digits(0xdd, |items|, 4)
    case Map(pairs) =>
      if |pairs| / 2 < 16 then [0x80 + |pairs| / 2]
      else if |pairs| / 2 < 0x1_0000 then Digits(0xde, |pairs| / 2, 2)
      else Digits(0xdf, |pairs| / 2, 4)
  }

  function Payload(v: Value): seq<byte> {
    match v case Str(s) => s case Bin(s) => s case Float(s) => s case Ext(_, s) => s case _ => []
  }

  function Encode(v: Value): seq<byte>
    requires Encodable(v)
    decreases v
  {
    Lead(v) + Payload(v) +
    (match v case Array(items) => EncodeItems(items) case Map(pairs) => EncodeItems(pairs) case _ => [])
  }

  function EncodeItems(items: seq<Value>): seq<byte>
    requires AllEncodable(items)
    decreases items
  {
    if items == [] then [] else Encode(items[0]) + EncodeItems(items[1..])
  }

  function ItemsOf(v: Value): seq<Value> {
    match v case Array(items) => items case Map(pairs) => pairs case _ => []
  }

  lemma Powers()
    ensures Pow256(1) == 0x100 && Pow256(2) == 0x1_0000 && Pow256(4) == 0x1_0000_0000
  {
    assert Pow256(4) == 256 * (256 * Pow256(2));
  }

  ghost predicate At(b: seq<byte>, pos: nat, piece: seq<byte>) {
    pos + |piece| <= |b| && b[pos..pos + |piece|] == piece
  }

  lemma AtBoth(b: seq<byte>, pos: nat, x: seq<byte>, y: seq<byte>)
    requires At(b, pos, x + y)
    ensures At(b, pos, x) && At(b, pos + |x|, y)
  {
    assert (x + y)[..|x|] == x && (x + y)[|x|..] == y;
  }

  // A count written after a leading byte is read back.
  lemma CountRead(b: seq<byte>, pos: nat, marker: byte, n: nat, k: nat)
    requires n < Pow256(k) && At(b, pos, Digits(marker, n, k))
    ensures b[pos] == marker && pos + 1 + k <= |b| && ReadBigEndian(b[pos + 1..pos + 1 + k]) == n
  {
    BigEndianInverse(n, k);
    AtBoth(b, pos, [marker], BigEndian(n, k));
    assert b[pos..pos + 1] == [marker];
  }

  ghost predicate LeadReads(b: seq<byte>, pos: nat, v: Value)
    requires Encodable(v)
  {
    |Lead(v)| > 0 && pos < |b| && HeadAt(b, pos) == Head(|Lead(v)| + |Payload(v)|, |ItemsOf(v)|)
  }

  lemma LeadScalar(b: seq<byte>, pos: nat, v: Value)
    requires Encodable(v) && (v.Nil? || v.Bool? || v.Uint? || v.Neg? || v.Float?) && At(b, pos, Lead(v))
    ensures LeadReads(b, pos, v)
  {
    Powers();
    assert b[pos..pos + |Lead(v)|][0] == Lead(v)[0];
  }

  lemma LeadStr(b: seq<byte>, pos: nat, v: Value)
    requires Encodable(v) && (v.Str? || v.Bin?) && At(b, pos, Lead(v))
    ensures LeadReads(b, pos, v)
  {
    Powers();
    assert b[pos..pos + |Lead(v)|][0] == Lead(v)[0];
    var n := |Payload(v)|;
    if v.Bin? || n >= 32 {
      var k := if n < 0x100 then 1 else if n < 0x1_0000 then 2 else 4;
      assert Lead(v) == Digits(Lead(v)[0], n, k);
      CountRead(b, pos, Lead(v)[0], n, k);
    }
  }

  lemma LeadExt(b: seq<byte>, pos: nat, v: Value)
    requires Encodable(v) && v.Ext? && At(b, pos, Lead(v))
    ensures LeadReads(b, pos, v)
  {
    AtBoth(b, pos, ExtLead(|v.data|), [v.kind]);
    ExtHead(b, pos, |v.data|);
  }

  lemma ExtHead(b: seq<byte>, pos: nat, n: nat)
    requires n < 0x1_0000_0000 && At(b, pos, ExtLead(n))
    ensures pos < |b| && HeadAt(b, pos) == Head(|ExtLead(n)| + 1 + n, 0)
  {
    Powers();
    var lead := ExtLead(n);
    assert b[pos..pos + |lead|][0] == lead[0];
    if n != 1 && n != 2 && n != 4 && n != 8 && n != 16 {
      var k := if n < 0x100 then 1 else if n < 0x1_0000 then 2 else 4;
      assert lead == Digits(lead[0], n, k);
      CountRead(b, pos, lead[0], n, k);
    }
  }

  // The one byte the format leaves unused is never the start of a value.
  lemma ReservedIsInvalid(more: seq<byte>)
    ensures ParseValue([0xc1] + more).Invalid?
  {
    assert ([0xc1] + more)[0] == 0xc1;
  }

  lemma LeadArray(b: seq<byte>, pos: nat, v: Value)
    requires Encodable(v) && (v.Array? || v.Map?) && At(b, pos, Lead(v))
    ensures LeadReads(b, pos, v)
  {
    Powers();
    assert b[pos..pos + |Lead(v)|][0] == Lead(v)[0];
    var n := if v.Array? then |v.items| else |v.pairs| / 2;
    if n >= 16 {
      var k := if n < 0x1_0000 then 2 else 4;
      assert Lead(v) == Digits(Lead(v)[0], n, k);
      CountRead(b, pos, Lead(v)[0], n, k);
    }
  }

  lemma LeadRead(b: seq<byte>, pos: nat, v: Value)
    requires Encodable(v) && At(b, pos, Lead(v))
    ensures LeadReads(b, pos, v)
  {
    if v.Array? || v.Map? {
      LeadArray(b, pos, v);
    } else if v.Str? || v.Bin? {
      LeadStr(b, pos, v);
    } else if v.Ext? {
      LeadExt(b, pos, v);
    } else {
      LeadScalar(b, pos, v);
    }
  }

  // Between pos and end stand exactly n values.
  ghost predicate Passes(b: seq<byte>, pos: nat, end: nat, n: nat) {
    pos <= end <= |b| && forall pending: nat :: Scan(b, pos, pending + n) == Scan(b, end, pending)
  }

  lemma PassesNone(b: seq<byte>, pos: nat)
    requires pos <= |b|
    ensures Passes(b, pos, pos, 0)
  {
  }

  lemma PassesMore(b: seq<byte>, pos: nat, mid: nat, end: nat, m: nat, n: nat)
    ensures Passes(b, pos, mid, m) && Passes(b, mid, end, n) ==> Passes(b, pos, end, m + n)
  {
    if Passes(b, pos, mid, m) && Passes(b, mid, end, n) {
      forall pending: nat ensures Scan(b, pos, pending + (m + n)) == Scan(b, end, pending) {
        assert pending + (m + n) == (pending + n) + m;
      }
    }
  }

  // A value is passed over once its head and then its items are.
  lemma PassesHead(b: seq<byte>, pos: nat, mid: nat, end: nat, n: nat)
    requires pos < |b| && pos < mid && HeadAt(b, pos) == Head(mid - pos, n)
    ensures Passes(b, mid, end, n) ==> Passes(b, pos, end, 1)
  {
    if Passes(b, mid, end, n) {
      forall pending: nat ensures Scan(b, pos, pending + 1) == Scan(b, end, pending) {
        assert Scan(b, mid, pending + n) == Scan(b, end, pending);
      }
    }
  }

  // A value is passed over once its items are.
  lemma PassesValue(b: seq<byte>, pos: nat, v: Value, mid: nat, end: nat, n: nat)
    requires Encodable(v) && At(b, pos, Encode(v)) && end == pos + |Encode(v)|
    requires mid == pos + |Lead(v)| + |Payload(v)| && n == |ItemsOf(v)|
    ensures At(b, mid, EncodeItems(ItemsOf(v))) && end == mid + |EncodeItems(ItemsOf(v))|
    ensures Passes(b, mid, end, n) ==> Passes(b, pos, end, 1)
    ensures n == 0 ==> mid == end <= |b|
  {
    EncodedParts(b, pos, v);
    PassesLead(b, pos, v, mid, end, n);
    EncodeUnfolds(v);
  }

  lemma PassesLead(b: seq<byte>, pos: nat, v: Value, mid: nat, end: nat, n: nat)
    requires Encodable(v) && At(b, pos, Lead(v)) && mid == pos + |Lead(v)| + |Payload(v)| && n == |ItemsOf(v)|
    ensures Passes(b, mid, end, n) ==> Passes(b, pos, end, 1)
  {
    LeadRead(b, pos, v);
    PassesHead(b, pos, mid, end, n);
  }

  lemma {:induction false} ScanPasses(b: seq<byte>, pos: nat, v: Value, end: nat)
    requires Encodable(v) && At(b, pos, Encode(v)) && end == pos + |Encode(v)|
    ensures Passes(b, pos, end, 1)
    decreases v
  {
    var mid, n := pos + |Lead(v)| + |Payload(v)|, |ItemsOf(v)|;
    PassesValue(b, pos, v, mid, end, n);
    if n == 0 {
      PassesNone(b, mid);
    } else {
      ScanPassesAll(b, mid, ItemsOf(v), end, n);
    }
  }

  lemma EncodedParts(b: seq<byte>, pos: nat, v: Value)
    requires Encodable(v) && At(b, pos, Encode(v))
    ensures At(b, pos, Lead(v)) && At(b, pos + |Lead(v)| + |Payload(v)|, EncodeItems(ItemsOf(v)))
    ensures |Encode(v)| == |Lead(v)| + |Payload(v)| + |EncodeItems(ItemsOf(v))|
  {
    EncodeUnfolds(v);
    AtAll(b, pos, Lead(v), Payload(v), EncodeItems(ItemsOf(v)));
  }

  lemma EncodeUnfolds(v: Value)
    requires Encodable(v)
    ensures Encode(v) == Lead(v) + Payload(v) + EncodeItems(ItemsOf(v))
    ensures !v.Array? && !v.Map? ==> EncodeItems(ItemsOf(v)) == []
  {
  }

  lemma AtAll(b: seq<byte>, pos: nat, x: seq<byte>, y: seq<byte>, z: seq<byte>)
    requires At(b, pos, x + y + z)
    ensures At(b, pos, x) && At(b, pos + |x| + |y|, z)
  {
    AtBoth(b, pos, x + y, z);
    AtBoth(b, pos, x, y);
  }

  // Scanning passes over exactly the encoded values.
  lemma {:induction false} ScanPassesAll(b: seq<byte>, pos: nat, items: seq<Value>, end: nat, n: nat)
    requires AllEncodable(items) && At(b, pos, EncodeItems(items))
    requires end == pos + |EncodeItems(items)| && n == |items|
    ensures Passes(b, pos, end, n)
    decreases items
  {
    if items == [] {
      PassesNone(b, pos);
    } else {
      var first, others := Encode(items[0]), EncodeItems(items[1..]);
      assert EncodeItems(items) == first + others;
      AtBoth(b, pos, first, others);
      var mid := pos + |first|;
      ScanPasses(b, pos, items[0], mid);
      ScanPassesAll(b, mid, items[1..], end, n - 1);
      PassesMore(b, pos, mid, end, 1, n - 1);
    }
  }

  // An encoded value is parsed as itself, whatever follows it.
  lemma ParseEncoded(v: Value, post: seq<byte>)
    requires Encodable(v)
    ensures ParseValue(Encode(v) + post) == Parsed(Encode(v), |Encode(v)|)
  {
    var b := Encode(v) + post;
    assert b[0..0 + |Encode(v)|] == Encode(v);
    ScanPasses(b, 0, v, |Encode(v)|);
    assert Scan(b, 0, 0 + 1) == Scan(b, |Encode(v)|, 0);
  }

  function EncodeAll(vs: seq<Value>): seq<seq<byte>>
    requires AllEncodable(vs)
  {
    if vs == [] then [] else [Encode(vs[0])] + EncodeAll(vs[1..])
  }

  lemma {:induction false} DecodeEncoded(vs: seq<Value>)
    requires AllEncodable(vs)
    ensures SelfDelimiting(ParseValue)
    ensures var r := DecodeAll(ParseValue, Flatten(EncodeAll(vs)));
            VecsOf(r.frames) == EncodeAll(vs) && r.rest == [] && !r.failed
    decreases |vs|
  {
    ParseValueSelfDelimiting();
    if vs == [] {
      assert EncodeAll(vs) == [];
    } else {
      var e, tail := Encode(vs[0]), EncodeAll(vs[1..]);
      FlattenCons(e, tail);
      ParseEncoded(vs[0], Flatten(tail));
      DecodeEncoded(vs[1..]);
      FirstFrame(ParseValue, e, Flatten(tail));
    }
  }

  // However the bytes of encoded messages are split over reads, the receiver gets exactly the messages.
  lemma MessagesArriveIntact(vs: seq<Value>, chunks: seq<seq<byte>>)
    requires AllEncodable(vs)
    requires Flatten(chunks) == Flatten(EncodeAll(vs))
    ensures SelfDelimiting(ParseValue)
    ensures var r := AfterReads(ParseValue, chunks); VecsOf(r.frames) == EncodeAll(vs) && r.rest == [] && !r.failed
  {
    DecodeEncoded(vs);
    SplitIrrelevant(ParseValue, chunks);
  }
}
