/** The 32-byte message header: its wire format, its object, and how parser and printer fit. */
module MessageHeader {
  import opened Bytes

  const MAX_DATA_SIZE := 32
  const LENGTH_OFFSET := 0
  const VERSION_OFFSET := LENGTH_OFFSET + 4
  const TYPE_OFFSET := VERSION_OFFSET + 2
  const TYPE_SIZE := MAX_DATA_SIZE - TYPE_OFFSET

  /** The object's state as a value. */
  datatype Header = Header(name: seq<byte>, length: u32, version: u16, data: seq<byte>)

  ghost predicate WellFormed(h: Header) { |h.name| < TYPE_SIZE && |h.data| == MAX_DATA_SIZE }

  function Zeros(n: nat): (r: seq<byte>)
    ensures |r| == n && forall i :: 0 <= i < n ==> r[i] == 0
  {
    seq(n, _ => 0)
  }

  /** The position of the first NUL, or the length if there is none. */
  function FirstNul(bs: seq<byte>): (k: nat)
    ensures k <= |bs| && (forall i :: 0 <= i < k ==> bs[i] != 0) && (k < |bs| ==> bs[k] == 0)
  {
    if |bs| == 0 || bs[0] == 0 then 0 else 1 + FirstNul(bs[1..])
  }

  function BeforeNul(bs: seq<byte>): seq<byte> { bs[..FirstNul(bs)] }

  function TypeArea(data: seq<byte>): seq<byte>
    requires |data| == MAX_DATA_SIZE
  {
    data[TYPE_OFFSET..]
  }

  /** The wire format: length and version big-endian, the type padded with NULs. */
  function Wire(name: seq<byte>, length: u32, version: u16): (r: seq<byte>)
    requires |name| < TYPE_SIZE
    ensures |r| == MAX_DATA_SIZE
  {
    Big(4, length) + Big(2, version) + name + Zeros(TYPE_SIZE - |name|)
  }

  /** The bytes on the wire, one by one. */
  ghost predicate Layout(data: seq<byte>, name: seq<byte>, length: u32, version: u16) {
    && |data| == 32 && |name| <= 25
    && data[0] as nat == length / 0x100_0000 && data[1] as nat == length / 0x1_0000 % 0x100
    && data[2] as nat == length / 0x100 % 0x100 && data[3] as nat == length % 0x100
    && data[4] as nat == version / 0x100 && data[5] as nat == version % 0x100
    && data[6..6 + |name|] == name
    && forall i :: 6 + |name| <= i < 32 ==> data[i] == 0
  }

  lemma LayoutTail(data: seq<byte>, name: seq<byte>)
    requires |data| == 32 && |name| <= 25
    ensures data[6..] == name + Zeros(26 - |name|) <==>
            data[6..6 + |name|] == name && forall i :: 6 + |name| <= i < 32 ==> data[i] == 0
  {
    var tail := data[6..];
    assert tail[..|name|] == data[6..6 + |name|];
    assert forall i :: 0 <= i < 26 ==> tail[i] == data[i + 6];
    assert forall i :: 6 <= i < 32 ==> data[i] == tail[i - 6];
    if tail == name + Zeros(26 - |name|) {
      forall i | 6 + |name| <= i < 32 ensures data[i] == 0 {
        assert data[i] == tail[i - 6] == Zeros(26 - |name|)[i - 6 - |name|];
      }
    }
  }

  /** The wire format is this layout and nothing else. */
  lemma WireExactly(data: seq<byte>, name: seq<byte>, length: u32, version: u16)
    requires |name| <= 25
    ensures data == Wire(name, length, version) <==> Layout(data, name, length, version)
  {
    if |data| == 32 {
      BigFour(data[0..4], length);
      BigTwo(data[4..6], version);
      LayoutTail(data, name);
      assert data == data[0..4] + data[4..6] + data[6..];
      var w := Wire(name, length, version);
      assert w[0..4] == Big(4, length) && w[4..6] == Big(2, version) && w[6..] == name + Zeros(26 - |name|);
    }
  }

  predicate Decodable(data: seq<byte>)
    requires |data| == MAX_DATA_SIZE
  {
    FirstNul(TypeArea(data)) < TYPE_SIZE
  }

  /** encode_header: refused for an empty type, otherwise the buffer becomes the wire format. */
  function Encoded(h: Header): (Header, bool)
    requires |h.name| < TYPE_SIZE
  {
    if h.name == [] then (h, false) else (h.(data := Wire(h.name, h.length, h.version)), true)
  }

  lemma WordRanges(data: seq<byte>)
    requires |data| == MAX_DATA_SIZE
    ensures FromBig(data[0..4]) < 0x1_0000_0000 && FromBig(data[4..6]) < 0x1_0000
  {
    FromThenLittle(Reverse(data[0..4]));
    FromThenLittle(Reverse(data[4..6]));
    assert Pow256(4) == 0x1_0000_0000 && Pow256(2) == 0x1_0000;
  }

  /** decode_header: length and version are taken over before the type area is examined. */
  function Decoded(h: Header): (Header, bool)
    requires |h.data| == MAX_DATA_SIZE
  {
    WordRanges(h.data);
    var h' := h.(length := FromBig(h.data[0..4]), version := FromBig(h.data[4..6]));
    if Decodable(h.data) then (h'.(name := BeforeNul(TypeArea(h.data))), true) else (h', false)
  }

  /** The length and the version that the bytes of a buffer spell. */
  ghost predicate SaysWords(data: seq<byte>, length: u32, version: u16) {
    && |data| == 32
    && length == data[0] as nat * 0x100_0000 + data[1] as nat * 0x1_0000 + data[2] as nat * 0x100 + data[3] as nat
    && version == data[4] as nat * 0x100 + data[5] as nat
  }

  /** The type that they spell: what stands before the first NUL. */
  ghost predicate SaysName(data: seq<byte>, name: seq<byte>) {
    |data| == 32 && 0 !in name && name + [0] <= data[6..32]
  }

  lemma SaysNameExactly(data: seq<byte>, name: seq<byte>)
    requires |data| == 32
    ensures SaysName(data, name) <==> FirstNul(data[6..32]) < 26 && name == BeforeNul(data[6..32])
  {
    var area := data[6..32];
    if SaysName(data, name) {
      assert forall i :: 0 <= i < |name| ==> area[i] == (name + [0])[i];
      assert area[|name|] == (name + [0])[|name|];
      FirstNulIs(area, |name|);
    }
  }

  /** What a decode delivers, byte by byte. */
  lemma DecodedSpelledOut(h: Header)
    requires |h.data| == 32
    ensures var (d, ok) := Decoded(h);
            && SaysWords(h.data, d.length, d.version) && (ok <==> 0 in h.data[6..32])
            && if ok then SaysName(h.data, d.name) else d.name == h.name
  {
    FromBigFour(h.data[0..4]);
    FromBigTwo(h.data[4..6]);
    var area := TypeArea(h.data);
    assert area == h.data[6..32];
    if FirstNul(area) < 26 { assert area[FirstNul(area)] == 0; }
    SaysNameExactly(h.data, Decoded(h).0.name);
  }

  /** A buffer after memcpy of `bs` to `offset`. */
  function Written(data: seq<byte>, offset: nat, bs: seq<byte>): (r: seq<byte>)
    requires offset + |bs| <= |data|
    ensures |r| == |data|
  {
    data[..offset] + bs + data[offset + |bs|..]
  }

  /** The four writes of encode_header leave nothing of the old buffer. */
  lemma FourCopies(data: seq<byte>, name: seq<byte>, length: u32, version: u16)
    requires |data| == MAX_DATA_SIZE && |name| < TYPE_SIZE
    ensures var words := Written(Written(data, LENGTH_OFFSET, Big(4, length)), VERSION_OFFSET, Big(2, version));
            Written(Written(words, TYPE_OFFSET, Zeros(TYPE_SIZE)), TYPE_OFFSET, name) == Wire(name, length, version)
  {
    var words := Written(Written(data, LENGTH_OFFSET, Big(4, length)), VERSION_OFFSET, Big(2, version));
    assert words[..TYPE_OFFSET] == Big(4, length) + Big(2, version);
    assert Written(words, TYPE_OFFSET, Zeros(TYPE_SIZE)) == words[..TYPE_OFFSET] + Zeros(TYPE_SIZE);
    assert Zeros(TYPE_SIZE)[|name|..] == Zeros(TYPE_SIZE - |name|);
  }

  // ---------------------------------------------------------------- the object

  datatype Op =
    | SetType(t: seq<byte>)
    | SetLength(l: u32)
    | SetVersion(v: u16)
    | Overwrite(bs: seq<byte>)
    | Encode
    | Decode

  /** The effect of one call on the object. */
  function Step(h: Header, op: Op): Header
    requires |h.name| < TYPE_SIZE && |h.data| == MAX_DATA_SIZE
  {
    match op
    case SetType(t) => if |t| < TYPE_SIZE then h.(name := t) else h
    case SetLength(l) => h.(length := l)
    case SetVersion(v) => h.(version := v)
    case Overwrite(bs) => if |bs| == MAX_DATA_SIZE then h.(data := bs) else h
    case Encode => Encoded(h).0
    case Decode => Decoded(h).0
  }

  class MessageHeader {
    const order: ByteOrder  // the host's
    var name: seq<byte>
    var length: u32
    var version: u16
    const data: array<byte>

    ghost function View(): Header
      reads this, data
    {
      Header(name, length, version, data[..])
    }

    ghost predicate Valid()
      reads this, data
    {
      data.Length == MAX_DATA_SIZE && |name| < TYPE_SIZE
    }

    /** The buffer's initial contents are arbitrary. */
    constructor (order: ByteOrder, garbage: seq<byte>)
      requires |garbage| == MAX_DATA_SIZE
      ensures Valid() && fresh(data) && this.order == order && View() == Header([], 0, 1, garbage)
      ensures data.Length == 32
    {
      this.order := order;
      name, length, version := [], 0, 1;
      data := new byte[MAX_DATA_SIZE](i requires 0 <= i < MAX_DATA_SIZE => garbage[i]);
    }

    method SetType(t: seq<byte>) returns (ok: bool)
      requires Valid()
      modifies this
      ensures Valid() && ok == (|t| <= 25)
      ensures View() == if ok then old(View()).(name := t) else old(View())
      ensures View() == Step(old(View()), Op.SetType(t))
    {
      if |t| >= TYPE_SIZE { return false; }
      name := t;
      return true;
    }

    method SetLength(l: u32)
      requires Valid()
      modifies this
      ensures Valid() && View() == old(View()).(length := l) == Step(old(View()), Op.SetLength(l))
    {
      length := l;
    }

    method SetVersion(v: u16)
      requires Valid()
      modifies this
      ensures Valid() && View() == old(View()).(version := v) == Step(old(View()), Op.SetVersion(v))
    {
      version := v;
    }

    /** A caller writing through the mutable reference that data() hands out. */
    method Overwrite(bs: seq<byte>)
      requires Valid() && |bs| == MAX_DATA_SIZE
      modifies data
      ensures Valid() && View() == old(View()).(data := bs) == Step(old(View()), Op.Overwrite(bs))
    {
      Copy(0, bs);
      assert data[..] == bs;
    }

    /** memcpy into the buffer. */
    method Copy(offset: nat, bs: seq<byte>)
      requires Valid() && offset + |bs| <= MAX_DATA_SIZE
      modifies data
      ensures Valid()
      ensures data[..] == Written(old(data[..]), offset, bs)
    {
      forall i | 0 <= i < |bs| { data[offset + i] := bs[i]; }
    }

    method EncodeHeader() returns (ok: bool)
      requires Valid()
      modifies data
      ensures Valid() && (View(), ok) == Encoded(old(View())) && View() == Step(old(View()), Op.Encode)
      ensures ok == (name != []) && if ok then Layout(data[..], name, length, version) else data[..] == old(data[..])
    {
      if name == [] { return false; }
      StoreIsBig(order, 4, length);
      StoreIsBig(order, 2, version);
      ghost var garbage := data[..];
      Copy(LENGTH_OFFSET, Store(order, 4, SwapToBig(order, 4, length)));
      Copy(VERSION_OFFSET, Store(order, 2, SwapToBig(order, 2, version)));
      Copy(TYPE_OFFSET, Zeros(TYPE_SIZE));
      Copy(TYPE_OFFSET, name);
      FourCopies(garbage, name, length, version);
      WireExactly(data[..], name, length, version);
      return true;
    }

    /** std::find for the NUL in the type area. */
    method FindNul() returns (end: nat)
      requires Valid()
      ensures end == TYPE_OFFSET + FirstNul(TypeArea(data[..]))
    {
      ghost var area := TypeArea(data[..]);
      end := TYPE_OFFSET;
      while end < MAX_DATA_SIZE && data[end] != 0
        invariant TYPE_OFFSET <= end <= MAX_DATA_SIZE
        invariant forall i :: 0 <= i < end - TYPE_OFFSET ==> area[i] != 0
      {
        end := end + 1;
      }
      FirstNulIs(area, end - TYPE_OFFSET);
    }

    method DecodeHeader() returns (ok: bool)
      requires Valid()
      modifies this
      ensures Valid() && (View(), ok) == Decoded(old(View())) && View() == Step(old(View()), Op.Decode)
      ensures SaysWords(data[..], length, version) && (ok <==> 0 in data[6..32])
      ensures if ok then SaysName(data[..], name) else name == old(name)
    {
      WordRanges(data[..]);
      DecodedSpelledOut(View());
      LoadIsBig(order, data[0..4]);
      LoadIsBig(order, data[4..6]);
      assert data[..][0..4] == data[0..4] && data[..][4..6] == data[4..6];
      length := SwapToBig(order, 4, Load(order, data[LENGTH_OFFSET..VERSION_OFFSET]));
      version := SwapToBig(order, 2, Load(order, data[VERSION_OFFSET..TYPE_OFFSET]));
      var end := FindNul();
      ghost var area := TypeArea(data[..]);
      if end == MAX_DATA_SIZE { return false; }
      assert data[TYPE_OFFSET..end] == area[..end - TYPE_OFFSET];
      name := data[TYPE_OFFSET..end];
      return true;
    }
  }

  lemma FirstNulIs(bs: seq<byte>, k: nat)
    requires k <= |bs| && (forall i :: 0 <= i < k ==> bs[i] != 0) && (k < |bs| ==> bs[k] == 0)
    ensures FirstNul(bs) == k
  {
  }

  // ---------------------------------------------------------------- parser against printer

  lemma WireParts(name: seq<byte>, length: u32, version: u16)
    requires |name| < TYPE_SIZE
    ensures var w := Wire(name, length, version);
            && FromBig(w[0..4]) == length && FromBig(w[4..6]) == version
            && TypeArea(w) == name + Zeros(TYPE_SIZE - |name|)
  {
    var w := Wire(name, length, version);
    assert w[0..4] == Big(4, length) && w[4..6] == Big(2, version);
    assert Pow256(4) == 0x1_0000_0000 && Pow256(2) == 0x1_0000;
    BigThenFrom(4, length);
    BigThenFrom(2, version);
    assert TypeArea(w) == name + Zeros(TYPE_SIZE - |name|);
  }

  lemma PaddedNul(name: seq<byte>, n: nat)
    requires n > 0
    ensures FirstNul(name + Zeros(n)) == FirstNul(name) && BeforeNul(name + Zeros(n)) == BeforeNul(name)
  {
    FirstNulIs(name + Zeros(n), FirstNul(name));
  }

  /**
   Encode, then decode, on any header object: never fails for a non-empty type, keeps length
   and version, and returns the type up to its first NUL, which is the type itself exactly
   when it contains no NUL. The bytes written do not depend on the old buffer.
   */
  lemma RoundTrip(h: Header)
    requires WellFormed(h) && h.name != []
    ensures var (e, ok) := Encoded(h);
            && ok && WellFormed(e)
            && Decoded(e) == (e.(name := BeforeNul(h.name)), true)
            && (BeforeNul(h.name) == h.name <==> 0 !in h.name)
            && forall d :: |d| == MAX_DATA_SIZE ==> Encoded(h.(data := d)).0 == e
  {
    WireParts(h.name, h.length, h.version);
    PaddedNul(h.name, TYPE_SIZE - |h.name|);
    if 0 !in h.name {
      FirstNulIs(h.name, |h.name|);
    }
  }

  lemma RoundTripIfNamed(h: Header)
    requires WellFormed(h)
    ensures h.name != [] ==> Decodable(Encoded(h).0.data)
    ensures h.name != [] ==> Fields(Decoded(Encoded(h).0).0) == (BeforeNul(h.name), h.length, h.version)
  {
    if h.name != [] { RoundTrip(h); }
  }

  /** Two headers have the same wire bytes exactly when they differ in trailing NULs of the type only. */
  lemma SameWire(n1: seq<byte>, l1: u32, v1: u16, n2: seq<byte>, l2: u32, v2: u16)
    requires |n1| <= |n2| < TYPE_SIZE
    ensures Wire(n1, l1, v1) == Wire(n2, l2, v2) <==> l1 == l2 && v1 == v2 && n2 == n1 + Zeros(|n2| - |n1|)
  {
    WireParts(n1, l1, v1);
    WireParts(n2, l2, v2);
    var w1, w2 := n1 + Zeros(TYPE_SIZE - |n1|), n2 + Zeros(TYPE_SIZE - |n2|);
    if w1 == w2 {
      assert n2 == w2[..|n2|] == w1[..|n2|] == n1 + Zeros(|n2| - |n1|);
    }
    if n2 == n1 + Zeros(|n2| - |n1|) {
      assert w1 == w2;
    }
  }

  lemma PaddingShows(name: seq<byte>, n: nat)
    ensures n > 0 ==> 0 in name + Zeros(n)
  {
    if n > 0 { assert (name + Zeros(n))[|name|] == 0; }
  }

  /** On types without NULs the encoding is injective. */
  lemma InjectiveWithoutNul(n1: seq<byte>, l1: u32, v1: u16, n2: seq<byte>, l2: u32, v2: u16)
    requires |n1| < TYPE_SIZE && |n2| < TYPE_SIZE && 0 !in n1 && 0 !in n2
    requires Wire(n1, l1, v1) == Wire(n2, l2, v2)
    ensures n1 == n2 && l1 == l2 && v1 == v2
  {
    if |n1| <= |n2| {
      SameWire(n1, l1, v1, n2, l2, v2);
      PaddingShows(n1, |n2| - |n1|);
    } else {
      SameWire(n2, l2, v2, n1, l1, v1);
      PaddingShows(n2, |n1| - |n2|);
    }
  }

  /** The buffer with everything after the type's first NUL zeroed. */
  function Canonical(data: seq<byte>): (r: seq<byte>)
    requires |data| == MAX_DATA_SIZE
    ensures |r| == MAX_DATA_SIZE
  {
    var k := TYPE_OFFSET + FirstNul(TypeArea(data));
    data[..k] + Zeros(MAX_DATA_SIZE - k)
  }

  lemma CanonicalParts(data: seq<byte>)
    requires |data| == MAX_DATA_SIZE
    ensures Canonical(data)[..TYPE_OFFSET] == data[..TYPE_OFFSET]
    ensures FirstNul(TypeArea(Canonical(data))) == FirstNul(TypeArea(data))
    ensures BeforeNul(TypeArea(Canonical(data))) == BeforeNul(TypeArea(data))
  {
    var k := FirstNul(TypeArea(data));
    var area := TypeArea(Canonical(data));
    assert area == TypeArea(data)[..k] + Zeros(TYPE_SIZE - k);
    FirstNulIs(area, k);
  }

  lemma CanonicalIdempotent(data: seq<byte>)
    requires |data| == MAX_DATA_SIZE
    ensures Canonical(Canonical(data)) == Canonical(data)
  {
    CanonicalParts(data);
  }

  /** A buffer is its two words and its type area. */
  lemma WireOfDecoded(data: seq<byte>, length: u32, version: u16)
    requires |data| == MAX_DATA_SIZE && Decodable(data)
    requires length == FromBig(data[0..4]) && version == FromBig(data[4..6])
    ensures Wire(BeforeNul(TypeArea(data)), length, version) == Canonical(data)
  {
    FromThenBig(data[0..4]);
    FromThenBig(data[4..6]);
    var k := FirstNul(TypeArea(data));
    assert data[..TYPE_OFFSET + k] == data[0..4] + data[4..6] + TypeArea(data)[..k];
  }

  /**
   Decode, then encode, on any decodable buffer: it succeeds exactly when the type area does
   not start with a NUL, and then yields the canonical form of the buffer.
   */
  lemma Canonicalises(h: Header)
    requires WellFormed(h) && Decodable(h.data)
    ensures var (d, _) := Decoded(h); var (e, ok) := Encoded(d);
            && (ok <==> h.data[TYPE_OFFSET] != 0)
            && e.data == (if ok then Canonical(h.data) else h.data)
  {
    var d := Decoded(h).0;
    WireOfDecoded(h.data, d.length, d.version);
    assert TypeArea(h.data)[0] == h.data[TYPE_OFFSET];
    assert d.name == [] <==> FirstNul(TypeArea(h.data)) == 0;
  }

  /** What a decode delivers. */
  function Fields(h: Header): (seq<byte>, u32, u16) { (h.name, h.length, h.version) }

  /** Two decodable buffers decode to the same header exactly when their canonical forms agree. */
  lemma DecodeEqual(h1: Header, h2: Header)
    requires WellFormed(h1) && WellFormed(h2) && Decodable(h1.data) && Decodable(h2.data)
    ensures Fields(Decoded(h1).0) == Fields(Decoded(h2).0) <==> Canonical(h1.data) == Canonical(h2.data)
  {
    var d1, d2 := Decoded(h1).0, Decoded(h2).0;
    WireOfDecoded(h1.data, d1.length, d1.version);
    WireOfDecoded(h2.data, d2.length, d2.version);
    if Canonical(h1.data) == Canonical(h2.data) {
      WireParts(d1.name, d1.length, d1.version);
      WireParts(d2.name, d2.length, d2.version);
      CanonicalParts(h1.data);
      CanonicalParts(h2.data);
    }
  }

  /**
   A header sent from one host to another: encoded on the sender, its bytes put into the
   receiver's buffer and decoded there. Whatever the byte orders of the two hosts, the receiver
   ends with the sender's length, version and type up to the first NUL.
   */
  method Transmit(sender: MessageHeader, receiver: MessageHeader) returns (ok: bool)
    requires sender.Valid() && receiver.Valid() && sender != receiver && sender.data != receiver.data
    modifies sender.data, receiver, receiver.data
    ensures sender.Valid() && receiver.Valid()
    ensures ok == (old(sender.name) != [])
    ensures ok ==> Fields(receiver.View()) == (BeforeNul(old(sender.name)), old(sender.length), old(sender.version))
    ensures ok ==> sender.data[..] == receiver.data[..]
    ensures ok ==> sender.data[..] == Wire(old(sender.name), old(sender.length), old(sender.version))
    ensures !ok ==> receiver.View() == old(receiver.View()) && sender.View() == old(sender.View())
  {
    RoundTripIfNamed(sender.View());
    ok := sender.EncodeHeader();
    if ok {
      receiver.Overwrite(sender.data[..]);
      var decoded := receiver.DecodeHeader();
      assert decoded;
    }
  }

  // ---------------------------------------------------------------- any sequence of calls

  /** After any sequence of calls the type is short enough for every encode to stay in the buffer. */
  function After(h: Header, ops: seq<Op>): (r: Header)
    requires WellFormed(h)
    ensures WellFormed(r)
    decreases |ops|
  {
    if |ops| == 0 then h else
      var last := After(h, ops[..|ops| - 1]);
      DecodeKeepsBounds(last);
      Step(last, ops[|ops| - 1])
  }

  lemma DecodeKeepsBounds(h: Header)
    requires WellFormed(h)
    ensures WellFormed(Decoded(h).0)
  {
  }

  /**
   A failing decode, at any moment: it fails exactly when the type area holds no NUL, and
   then length and version are already the buffer's while the type is still the old one.
   */
  lemma FailedDecode(h: Header)
    requires WellFormed(h)
    ensures Decoded(h).1 <==> 0 in TypeArea(h.data)
    ensures !Decoded(h).1 ==> Decoded(h).0.name == h.name
    ensures Decoded(h).0.data == h.data
    ensures Big(4, Decoded(h).0.length) == h.data[0..4] && Big(2, Decoded(h).0.version) == h.data[4..6]
  {
    FromThenBig(h.data[0..4]);
    FromThenBig(h.data[4..6]);
    var k := FirstNul(TypeArea(h.data));
    if k < TYPE_SIZE { assert TypeArea(h.data)[k] == 0; }
  }

  predicate IsSetter(op: Op) { op.SetType? || op.SetLength? || op.SetVersion? }

  lemma {:induction false} SettersKeepData(h: Header, ops: seq<Op>)
    requires WellFormed(h) && forall i :: 0 <= i < |ops| ==> IsSetter(ops[i])
    ensures After(h, ops).data == h.data
    decreases |ops|
  {
    if |ops| > 0 { SettersKeepData(h, ops[..|ops| - 1]); }
  }

  /**
   What was encoded is what a later decode delivers, whatever was set on the object in
   between: the fields at the time of the encode, the type up to its first NUL.
   */
  lemma DecodeRecallsEncode(h: Header, ops: seq<Op>)
    requires WellFormed(h) && h.name != [] && forall i :: 0 <= i < |ops| ==> IsSetter(ops[i])
    ensures var (d, ok) := Decoded(After(Encoded(h).0, ops));
            ok && Fields(d) == (BeforeNul(h.name), h.length, h.version)
  {
    RoundTrip(h);
    SettersKeepData(Encoded(h).0, ops);
  }
}
