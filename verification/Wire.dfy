/** The Protocol Buffers wire format as the agent writes and reads it
    (agent/src/pb.c; "Base 128 Varints" of the Encoding guide). */
module Wire {

  type Byte = b: int | 0 <= b < 256
  type Bytes = seq<Byte>

  const U32: nat := 0x1_0000_0000
  const U64: nat := 0x1_0000_0000_0000_0000
  const U64_POWERS: nat := 10  // shifts 0, 7, .. 63

  // ---------------------------------------------------------------------
  // Varints
  // ---------------------------------------------------------------------

  function EncVarint(v: nat): (r: Bytes)
    ensures r != []
  {
    if v < 128 then [v] else [v % 128 + 128] + EncVarint(v / 128)
  }

  function Pow128(k: nat): nat {
    if k == 0 then 1 else 128 * Pow128(k - 1)
  }

  datatype Got<+T> = Got(value: T, rest: Bytes) | Malformed

  /** pb_get_varint after k continuation bytes. The new bits are shifted past
      those of acc, so the C `|=` adds; bits beyond the 64th are lost. */
  function DecFrom(s: Bytes, k: nat, acc: nat): (g: Got<nat>)
    ensures g.Got? ==> |g.rest| < |s|
    decreases |s|
  {
    if s == [] || k >= U64_POWERS then Malformed
    else
      var v := acc + (s[0] % 128 * Pow128(k)) % U64;
      if s[0] < 128 then Got(v, s[1..]) else DecFrom(s[1..], k + 1, v)
  }

  function DecVarint(s: Bytes): (g: Got<nat>)
    ensures g.Got? ==> |g.rest| < |s|
  {
    DecFrom(s, 0, 0)
  }

  lemma Digit(v: nat, p: nat)
    ensures v * p == v / 128 * (128 * p) + v % 128 * p
    ensures v % 128 * p <= v * p
    ensures v >= 128 ==> 128 * p <= v * p
  {
    assert v == v / 128 * 128 + v % 128;
    assert (v / 128 * 128 + v % 128) * p == v / 128 * 128 * p + v % 128 * p;
    assert v / 128 * 128 * p == v / 128 * (128 * p);
    if v >= 128 { assert v * p == 128 * p + (v - 128) * p; }
  }

  /** A digit that fits is not cut off by the 64-bit shift. */
  lemma DigitFits(v: nat, p: nat)
    requires v * p < U64
    ensures (v % 128 * p) % U64 == v % 128 * p
  {
    Digit(v, p);
  }

  lemma TopPower(k: nat)
    requires Pow128(k) < U64
    ensures k < U64_POWERS
  {
    if k >= U64_POWERS { PowGrows(U64_POWERS, k); }
  }

  lemma {:induction false} PowGrows(j: nat, k: nat)
    requires j <= k
    ensures 1 <= Pow128(j) <= Pow128(k)
  {
    if j > 0 { PowGrows(j - 1, k - 1); } else if k > 0 { PowGrows(0, k - 1); }
  }

  lemma {:induction false} DecodesFrom(v: nat, k: nat, acc: nat, rest: Bytes)
    requires k < U64_POWERS && v * Pow128(k) < U64
    ensures DecFrom(EncVarint(v) + rest, k, acc) == Got(acc + v * Pow128(k), rest)
    decreases v
  {
    var p := Pow128(k);
    var s := EncVarint(v) + rest;
    Digit(v, p);
    DigitFits(v, p);
    assert s[0] % 128 == v % 128;
    if v < 128 {
      assert s[1..] == rest;
    } else {
      TopPower(k + 1);
      assert s[1..] == EncVarint(v / 128) + rest;
      DecodesFrom(v / 128, k + 1, acc + v % 128 * p, rest);
      DecStep(s, k, acc, v % 128 * p);
    }
  }

  lemma DecStep(s: Bytes, k: nat, acc: nat, d: nat)
    requires s != [] && k < U64_POWERS && s[0] >= 128 && d == (s[0] % 128 * Pow128(k)) % U64
    ensures DecFrom(s, k, acc) == DecFrom(s[1..], k + 1, acc + d)
  {
  }

  lemma {:induction false} VarintLength(v: nat, n: nat)
    requires v < Pow128(n) && n >= 1
    ensures |EncVarint(v)| <= n
  {
    if v >= 128 {
      assert Pow128(0) == 1 && Pow128(1) == 128;
      VarintLength(v / 128, n - 1);
    }
  }

  lemma AtMostTen(v: nat)
    requires v < U64
    ensures |EncVarint(v)| <= 10
  {
    assert Pow128(10) > U64;
    VarintLength(v, 10);
  }

  lemma FromStart(v: nat, rest: Bytes)
    requires v < U64
    ensures DecFrom(EncVarint(v) + rest, 0, 0) == Got(v, rest)
  {
    assert Pow128(0) == 1 && v * 1 == v;
    DecodesFrom(v, 0, 0, rest);
  }

  /** Every 64-bit value comes back, in at most ten bytes, leaving the rest. */
  lemma VarintRoundTrip(v: nat, rest: Bytes)
    requires v < U64
    ensures DecVarint(EncVarint(v) + rest) == Got(v, rest)
    ensures |EncVarint(v)| <= 10
  {
    FromStart(v, rest);
    AtMostTen(v);
  }

  // ---------------------------------------------------------------------
  // Fields
  // ---------------------------------------------------------------------

  datatype Item =
    | Varint(no: nat, v: nat)
    | Fixed64(no: nat, raw: Bytes)
    | Chunk(no: nat, raw: Bytes)
    | Fixed32(no: nat, raw: Bytes)

  function WireType(it: Item): nat {
    match it
    case Varint(_, _) => 0
    case Fixed64(_, _) => 1
    case Chunk(_, _) => 2
    case Fixed32(_, _) => 5
  }

  predicate WellFormed(it: Item) {
    && 0 < it.no < U32
    && (it.Varint? ==> it.v < U64)
    && (it.Fixed64? ==> |it.raw| == 8)
    && (it.Fixed32? ==> |it.raw| == 4)
    && (it.Chunk? ==> |it.raw| < U64)
  }

  function Body(it: Item): Bytes {
    match it
    case Varint(_, v) => EncVarint(v)
    case Fixed64(_, raw) => raw
    case Chunk(_, raw) => EncVarint(|raw|) + raw
    case Fixed32(_, raw) => raw
  }

  function EncTag(no: nat, wt: nat): Bytes {
    EncVarint(no * 8 + wt)
  }

  function EncItem(it: Item): Bytes {
    EncTag(it.no, WireType(it)) + Body(it)
  }

  function EncItems(items: seq<Item>): Bytes {
    if items == [] then [] else EncItem(items[0]) + EncItems(items[1..])
  }

  datatype Tag = Tag(no: nat, wt: nat)

  /** pb_next. */
  function DecTag(s: Bytes): (g: Got<Tag>)
    ensures g.Got? ==> |g.rest| < |s| && 0 < g.value.no < U32
  {
    var k := DecVarint(s);
    if k.Malformed? then Malformed
    else
      var no := k.value / 8 % U32;
      if no == 0 then Malformed else Got(Tag(no, k.value % 8), k.rest)
  }

  function Take(s: Bytes, n: nat): (g: Got<Bytes>)
    ensures g.Got? ==> |g.rest| <= |s| && |g.value| == n
  {
    if |s| < n then Malformed else Got(s[..n], s[n..])
  }

  /** pb_get_len. */
  function DecLen(s: Bytes): (g: Got<Bytes>)
    ensures g.Got? ==> |g.rest| <= |s|
  {
    var n := DecVarint(s);
    if n.Malformed? then Malformed else Take(n.rest, n.value)
  }

  /** The body after a tag; pb_skip moves over the same bytes. */
  function DecBody(t: Tag, s: Bytes): (g: Got<Item>)
    ensures g.Got? ==> |g.rest| <= |s|
  {
    match t.wt
    case 0 => (var g := DecVarint(s); if g.Got? then Got(Varint(t.no, g.value), g.rest) else Malformed)
    case 1 => (var g := Take(s, 8); if g.Got? then Got(Fixed64(t.no, g.value), g.rest) else Malformed)
    case 2 => (var g := DecLen(s); if g.Got? then Got(Chunk(t.no, g.value), g.rest) else Malformed)
    case 5 => (var g := Take(s, 4); if g.Got? then Got(Fixed32(t.no, g.value), g.rest) else Malformed)
    case _ => Malformed
  }

  function DecItem(s: Bytes): (g: Got<Item>)
    ensures g.Got? ==> |g.rest| < |s|
  {
    var t := DecTag(s);
    if t.Malformed? then Malformed else DecBody(t.value, t.rest)
  }

  datatype Message = Message(items: seq<Item>) | Rejected

  datatype Option<+A> = None | Some(value: A)

  /** How a message's decoder reads a field it knows. */
  datatype Getter = NumberGetter | BytesGetter

  /** The switch of one message: a getter for each field number it knows. */
  type Table = nat -> Option<Getter>

  predicate Fetches(g: Getter, it: Item) {
    match g
    case NumberGetter => it.Varint?
    case BytesGetter => it.Chunk?
  }

  /** One getter call; the wire type of the tag plays no part. */
  function Fetch(g: Getter, no: nat, s: Bytes): (r: Got<Item>)
    ensures r.Got? ==> |r.rest| <= |s|
  {
    match g
    case NumberGetter => (var v := DecVarint(s); if v.Got? then Got(Varint(no, v.value), v.rest) else Malformed)
    case BytesGetter => (var b := DecLen(s); if b.Got? then Got(Chunk(no, b.value), b.rest) else Malformed)
  }

  /** One turn of a message's loop: the number alone picks the getter, and a
      number without one is skipped by its wire type. */
  function DecField(known: Table, s: Bytes): (r: Got<Option<Item>>)
    ensures r.Got? ==> |r.rest| < |s|
  {
    var t := DecTag(s);
    if t.Malformed? then Malformed
    else
      var k := known(t.value.no);
      if k.None? then
        var g := DecBody(t.value, t.rest);
        if g.Got? then Got(None, g.rest) else Malformed
      else
        var g := Fetch(k.value, t.value.no, t.rest);
        if g.Got? then Got(Some(g.value), g.rest) else Malformed
  }

  function Added(items: seq<Item>, it: Option<Item>): seq<Item> {
    if it.Some? then items + [it.value] else items
  }

  /** A message decoder: known fields are delivered in order, others skipped,
      and any error rejects the message. */
  function Decode(known: Table, s: Bytes): Message
    decreases |s|
  {
    if s == [] then Message([])
    else
      var g := DecField(known, s);
      if g.Malformed? then Rejected
      else
        var tail := Decode(known, g.rest);
        if tail.Rejected? || g.value.None? then tail else Message([g.value.value] + tail.items)
  }

  /** The fields whose number the message knows. */
  function Known(known: Table, items: seq<Item>): seq<Item> {
    if items == [] then []
    else if known(items[0].no).Some? then [items[0]] + Known(known, items[1..])
    else Known(known, items[1..])
  }

  /** A known field carries the wire type its getter reads. */
  predicate Typed(known: Table, it: Item) {
    known(it.no).Some? ==> Fetches(known(it.no).value, it)
  }

  lemma TagRoundTrip(no: nat, wt: nat, rest: Bytes)
    requires 0 < no < U32 && wt < 8
    ensures DecTag(EncTag(no, wt) + rest) == Got(Tag(no, wt), rest)
  {
    VarintRoundTrip(no * 8 + wt, rest);
  }

  lemma BodyRoundTrip(it: Item, rest: Bytes)
    requires WellFormed(it)
    ensures DecBody(Tag(it.no, WireType(it)), Body(it) + rest) == Got(it, rest)
  {
    match it
    case Varint(_, v) => VarintRoundTrip(v, rest);
    case Chunk(_, raw) => LenRoundTrip(raw, rest);
    case Fixed64(_, raw) => TakeWhole(raw, rest);
    case Fixed32(_, raw) => TakeWhole(raw, rest);
  }

  lemma TakeWhole(raw: Bytes, rest: Bytes)
    ensures Take(raw + rest, |raw|) == Got(raw, rest)
  {
    assert (raw + rest)[..|raw|] == raw && (raw + rest)[|raw|..] == rest;
  }

  lemma LenRoundTrip(raw: Bytes, rest: Bytes)
    requires |raw| < U64
    ensures DecLen(EncVarint(|raw|) + raw + rest) == Got(raw, rest)
  {
    VarintRoundTrip(|raw|, raw + rest);
    assert EncVarint(|raw|) + raw + rest == EncVarint(|raw|) + (raw + rest);
    TakeWhole(raw, rest);
  }

  lemma ItemRoundTrip(it: Item, rest: Bytes)
    requires WellFormed(it)
    ensures DecItem(EncItem(it) + rest) == Got(it, rest)
  {
    var tag, body := EncTag(it.no, WireType(it)), Body(it);
    assert tag + body + rest == tag + (body + rest);
    TagRoundTrip(it.no, WireType(it), body + rest);
    BodyRoundTrip(it, rest);
  }

  lemma FieldRoundTrip(known: Table, it: Item, rest: Bytes)
    requires WellFormed(it) && Typed(known, it)
    ensures DecField(known, EncItem(it) + rest) == Got(if known(it.no).Some? then Some(it) else None, rest)
  {
    var tag, body := EncTag(it.no, WireType(it)), Body(it);
    assert tag + body + rest == tag + (body + rest);
    TagRoundTrip(it.no, WireType(it), body + rest);
    BodyRoundTrip(it, rest);
  }

  lemma FieldThenRest(known: Table, it: Item, rest: Bytes)
    requires WellFormed(it) && Typed(known, it)
    ensures var tail := Decode(known, rest);
            Decode(known, EncItem(it) + rest) ==
              if tail.Rejected? || known(it.no).None? then tail else Message([it] + tail.items)
  {
    FieldRoundTrip(known, it, rest);
  }

  lemma {:induction false} TypedStream(known: Table, items: seq<Item>)
    requires forall i :: 0 <= i < |items| ==> WellFormed(items[i]) && Typed(known, items[i])
    ensures Decode(known, EncItems(items)) == Message(Known(known, items))
  {
    if items != [] {
      FieldThenRest(known, items[0], EncItems(items[1..]));
      TypedStream(known, items[1..]);
    }
  }

  /** Whatever the bytes, a delivered field has the type of its getter. */
  lemma {:induction false} DeliveredTyped(known: Table, s: Bytes)
    ensures var m := Decode(known, s);
            m.Message? ==> forall i :: 0 <= i < |m.items| ==> known(m.items[i].no).Some? && Typed(known, m.items[i])
    decreases |s|
  {
    if s != [] && DecField(known, s).Got? {
      DeliveredTyped(known, DecField(known, s).rest);
    }
  }

  lemma {:induction false} KnownHas(known: Table, items: seq<Item>, it: Item)
    ensures it in Known(known, items) <==> it in items && known(it.no).Some?
  {
    if items != [] {
      KnownHas(known, items[1..], it);
      assert it in items <==> it == items[0] || it in items[1..];
    }
  }

  /** A stream of fields decodes to its known fields if and only if each known
      field carries the wire type its getter reads. */
  lemma StreamRoundTrip(known: Table, items: seq<Item>)
    requires forall i :: 0 <= i < |items| ==> WellFormed(items[i])
    ensures Decode(known, EncItems(items)) == Message(Known(known, items))
       <==> forall i :: 0 <= i < |items| ==> Typed(known, items[i])
  {
    if forall i :: 0 <= i < |items| ==> Typed(known, items[i]) {
      TypedStream(known, items);
    }
    if Decode(known, EncItems(items)) == Message(Known(known, items)) {
      DeliveredTyped(known, EncItems(items));
      forall i | 0 <= i < |items| ensures Typed(known, items[i]) {
        KnownHas(known, items, items[i]);
      }
    }
  }

  /** One field of each wire type, byte for byte as other protobuf encoders write it. */
  lemma BytesOfFields(raw: Bytes)
    ensures EncItem(Varint(1, 150)) == [0x08, 0x96, 0x01]
    ensures |raw| < 128 ==> EncItem(Chunk(2, raw)) == [0x12, |raw|] + raw
    ensures EncItem(Fixed64(3, raw)) == [0x19] + raw && EncItem(Fixed32(4, raw)) == [0x25] + raw
  {
    assert EncVarint(150) == [0x96] + EncVarint(1);
    assert EncTag(1, 0) == [0x08] && EncTag(2, 2) == [0x12] && EncTag(3, 1) == [0x19] && EncTag(4, 5) == [0x25];
    assert |raw| < 128 ==> [0x12] + ([|raw|] + raw) == [0x12, |raw|] + raw;
  }

  /** A heartbeat ack: three numbers. */
  function HeartbeatAck(no: nat): Option<Getter> {
    if no == 1 || no == 2 || no == 3 then Some(NumberGetter) else None
  }

  function Ones(n: nat): Bytes {
    if n == 0 then [] else [1] + Ones(n - 1)
  }

  /** A mistyped field is misread: eight bytes under number 1 are taken for a
      one-byte number, the next of them is no tag, and the message is rejected. */
  lemma MistypedFieldRejected()
    ensures Decode(HeartbeatAck, EncItems([Fixed64(1, Ones(8)), Varint(2, 1)])) == Rejected
  {
    var tail := Ones(7) + EncItem(Varint(2, 1));
    OneItem(Varint(2, 1));
    EncCons(Fixed64(1, Ones(8)), [Varint(2, 1)]);
    assert Ones(8) == [1] + Ones(7) && Ones(7) == [1] + Ones(6);
    assert [Fixed64(1, Ones(8))] + [Varint(2, 1)] == [Fixed64(1, Ones(8)), Varint(2, 1)];
    assert EncItems([Fixed64(1, Ones(8)), Varint(2, 1)]) == EncTag(1, 1) + (EncVarint(1) + tail);
    TagRoundTrip(1, 1, EncVarint(1) + tail);
    VarintRoundTrip(1, tail);
    var more := Ones(6) + EncItem(Varint(2, 1));
    assert tail == EncVarint(1) + more;
    VarintRoundTrip(1, more);
    assert DecTag(tail).Malformed?;
  }

  /** A field with a number the message does not know, of any wire type, inserted
      after any typed fields and before any bytes at all, changes nothing. */
  lemma {:induction false} UnknownFieldsIgnored(known: Table, before: seq<Item>, extra: Item, rest: Bytes)
    requires WellFormed(extra) && known(extra.no).None?
    requires forall i :: 0 <= i < |before| ==> WellFormed(before[i]) && Typed(known, before[i])
    ensures Decode(known, EncItems(before) + (EncItem(extra) + rest)) == Decode(known, EncItems(before) + rest)
  {
    if before == [] {
      FieldThenRest(known, extra, rest);
      assert EncItems(before) + rest == rest && EncItems(before) + (EncItem(extra) + rest) == EncItem(extra) + rest;
    } else {
      var h, t := before[0], before[1..];
      UnknownFieldsIgnored(known, t, extra, rest);
      Assoc(EncItem(h), EncItems(t), EncItem(extra) + rest);
      Assoc(EncItem(h), EncItems(t), rest);
      FieldThenRest(known, h, EncItems(t) + (EncItem(extra) + rest));
      FieldThenRest(known, h, EncItems(t) + rest);
    }
  }

  /** What the encoder was asked to put: proto3 drops zero scalars and empty
      strings, so those do not reach the wire. */
  datatype Put = U64Put(no: nat, v: nat) | BytesPut(no: nat, raw: Bytes)

  function Wanted(puts: seq<Put>): seq<Item> {
    if puts == [] then []
    else
      var rest := Wanted(puts[1..]);
      match puts[0]
      case U64Put(no, v) => if v == 0 then rest else [Varint(no, v)] + rest
      case BytesPut(no, raw) => if raw == [] then rest else [Chunk(no, raw)] + rest
  }

  predicate Fits(p: Put) {
    && 0 < p.no < U32
    && (p.U64Put? ==> p.v < U64)
    && (p.BytesPut? ==> |p.raw| < U64)
  }

  lemma {:induction false} WantedWellFormed(puts: seq<Put>)
    requires forall i :: 0 <= i < |puts| ==> Fits(puts[i])
    ensures forall i :: 0 <= i < |Wanted(puts)| ==> WellFormed(Wanted(puts)[i])
  {
    if puts != [] { WantedWellFormed(puts[1..]); }
  }

  lemma {:induction false} WantedAppend(puts: seq<Put>, p: Put)
    ensures Wanted(puts + [p]) == Wanted(puts) + Wanted([p])
  {
    if puts == [] {
      assert puts + [p] == [p] && [] + Wanted([p]) == Wanted([p]);
    } else {
      WantedAppend(puts[1..], p);
      assert (puts + [p])[1..] == puts[1..] + [p];
    }
  }

  lemma Assoc(a: Bytes, b: Bytes, c: Bytes)
    ensures a + (b + c) == a + b + c
  {
  }

  lemma EncCons(it: Item, rest: seq<Item>)
    ensures EncItems([it] + rest) == EncItem(it) + EncItems(rest)
  {
    assert ([it] + rest)[0] == it && ([it] + rest)[1..] == rest;
  }

  lemma {:induction false} EncItemsAppend(a: seq<Item>, b: seq<Item>)
    ensures EncItems(a + b) == EncItems(a) + EncItems(b)
  {
    if a == [] {
      assert a + b == b;
    } else {
      var h, t := a[0], a[1..];
      assert a == [h] + t && a + b == [h] + (t + b);
      EncItemsAppend(t, b);
      EncCons(h, t);
      EncCons(h, t + b);
      Assoc(EncItem(h), EncItems(t), EncItems(b));
    }
  }

  /** The receiver reads each field it knows the way the sender puts it. */
  predicate Agrees(known: Table, p: Put) {
    known(p.no).Some? ==> known(p.no).value == if p.U64Put? then NumberGetter else BytesGetter
  }

  lemma {:induction false} WantedTyped(known: Table, puts: seq<Put>)
    requires forall i :: 0 <= i < |puts| ==> Agrees(known, puts[i])
    ensures forall i :: 0 <= i < |Wanted(puts)| ==> Typed(known, Wanted(puts)[i])
  {
    if puts != [] { WantedTyped(known, puts[1..]); }
  }

  /** The sender's puts come back, less the zero and empty ones and those the
      receiver does not know. */
  lemma MessageRoundTrip(known: Table, puts: seq<Put>)
    requires forall i :: 0 <= i < |puts| ==> Fits(puts[i]) && Agrees(known, puts[i])
    ensures Decode(known, EncItems(Wanted(puts))) == Message(Known(known, Wanted(puts)))
  {
    WantedWellFormed(puts);
    WantedTyped(known, puts);
    TypedStream(known, Wanted(puts));
  }

  // ---------------------------------------------------------------------
  // The encoder's buffer
  // ---------------------------------------------------------------------

  lemma ShiftByte(s: Bytes, tail: Bytes)
    requires tail != []
    ensures s + [tail[0]] + tail[1..] == s + tail
  {
    assert tail == [tail[0]] + tail[1..];
  }

  class Buffer {
    var p: array<Byte>
    var len: nat
    var oom: bool
    var memory: nat      // largest block the allocator will still give

    ghost predicate Valid()
      reads this
    {
      len <= p.Length
    }

    ghost function Contents(): Bytes
      requires Valid()
      reads this, p
    {
      p[..len]
    }

    constructor (memory: nat)
      ensures Valid() && Contents() == [] && !oom && fresh(p) && this.memory == memory && len == 0
    {
      p, len, oom := new Byte[0], 0, false;
      this.memory := memory;
    }

    /** The allocator can give a block for n bytes, with the slack doubling brings. */
    predicate Enough(n: nat)
      reads this
    {
      256 <= memory && 2 * n <= memory
    }

    /** ensure: room for extra bytes, the capacity doubling as often as needed. */
    method Reserve(extra: nat) returns (ok: bool)
      requires Valid()
      modifies this
      ensures Valid() && Contents() == old(Contents()) && ok == !oom
      ensures ok ==> len + extra <= p.Length
      ensures old(oom) ==> oom
      ensures p == old(p) || fresh(p)
      ensures memory == old(memory) && len == old(len)
      ensures !old(oom) && Enough(len + extra) ==> ok
      ensures p != old(p) ==> p.Length >= 2 * old(p.Length)
    {
      if oom { return false; }
      if len + extra <= p.Length { return true; }
      var cap := if p.Length > 0 then 2 * p.Length else 256;
      while cap < len + extra
        invariant 0 < cap && 2 * p.Length <= cap && (cap <= 2 * (len + extra) || cap == 256)
        decreases len + extra - cap
      {
        cap := 2 * cap;
      }
      if cap > memory {
        oom := true;
        return false;
      }
      var np := new Byte[cap](i requires 0 <= i < cap reads this, p => if i < p.Length then p[i] else 0);
      assert np[..len] == p[..len];
      p := np;
      return true;
    }

    method PutVarint(v: nat)
      requires Valid() && v < U64
      modifies this, p
      ensures Valid() && (old(oom) ==> oom) && (p == old(p) || fresh(p))
      ensures !oom ==> Contents() == old(Contents()) + EncVarint(v)
      ensures memory == old(memory) && len <= old(len) + 10
      ensures !old(oom) && Enough(old(len) + 10) ==> !oom
    {
      var ok := Reserve(10);
      if !ok { return; }
      VarintRoundTrip(v, []);
      ghost var before := Contents();
      FillVarint(v);
    }

    /** The byte loop of pb_put_varint. */
    method FillVarint(v: nat)
      requires Valid() && len + |EncVarint(v)| <= p.Length
      modifies p, this`len
      ensures Valid() && Contents() == old(Contents()) + EncVarint(v)
    {
      var rest := v;
      var more := true;
      ghost var tail := EncVarint(v);
      ghost var total := Contents() + tail;
      while more
        invariant Valid() && p == old(p) && len + |tail| <= p.Length
        invariant tail == if more then EncVarint(rest) else []
        invariant Contents() + tail == total
        decreases more, rest
      {
        var byte := rest % 128;
        more := rest >= 128;
        rest := rest / 128;
        if more { byte := byte + 128; }
        assert tail[0] == byte && tail[1..] == if more then EncVarint(rest) else [];
        ShiftByte(Contents(), tail);
        PutByte(byte);
        tail := tail[1..];
      }
      assert Contents() + tail == Contents();
    }

    method PutByte(byte: Byte)
      requires Valid() && len < p.Length
      modifies p, this`len
      ensures Valid() && Contents() == old(Contents()) + [byte] && len == old(len) + 1
    {
      p[len] := byte;
      len := len + 1;
    }

    method Append(data: Bytes)
      requires Valid()
      modifies this, p
      ensures Valid() && (old(oom) ==> oom) && (p == old(p) || fresh(p))
      ensures !oom ==> Contents() == old(Contents()) + data
      ensures memory == old(memory) && len <= old(len) + |data|
      ensures !old(oom) && Enough(old(len) + |data|) ==> !oom
    {
      if data == [] { return; }
      var ok := Reserve(|data|);
      if !ok { return; }
      forall i | 0 <= i < |data| { p[len + i] := data[i]; }
      assert p[..len + |data|] == old(Contents()) + data;
      len := len + |data|;
    }

    method PutU64(no: nat, v: nat)
      requires Valid() && 0 < no < U32 && v < U64
      modifies this, p
      ensures Valid() && (old(oom) ==> oom) && (p == old(p) || fresh(p))
      ensures !oom ==> Contents() == old(Contents()) + EncItems(Wanted([U64Put(no, v)]))
      ensures memory == old(memory) && len <= old(len) + Bulk(U64Put(no, v))
      ensures !old(oom) && Enough(old(len) + Bulk(U64Put(no, v))) ==> !oom
    {
      OnePut(U64Put(no, v));
      if v == 0 { return; }
      ghost var before := Contents();
      PutVarint(no * 8);
      PutVarint(v);
      Assoc(before, EncTag(no, 0), EncVarint(v));
    }

    method PutBytes(no: nat, raw: Bytes)
      requires Valid() && 0 < no < U32 && |raw| < U64
      modifies this, p
      ensures Valid() && (old(oom) ==> oom) && (p == old(p) || fresh(p))
      ensures !oom ==> Contents() == old(Contents()) + EncItems(Wanted([BytesPut(no, raw)]))
      ensures memory == old(memory) && len <= old(len) + Bulk(BytesPut(no, raw))
      ensures !old(oom) && Enough(old(len) + Bulk(BytesPut(no, raw))) ==> !oom
    {
      OnePut(BytesPut(no, raw));
      if raw == [] { return; }
      ghost var before := Contents();
      PutVarint(no * 8 + 2);
      PutVarint(|raw|);
      Append(raw);
      Assoc(before, EncTag(no, 2), EncVarint(|raw|));
      Assoc(before, EncTag(no, 2) + EncVarint(|raw|), raw);
      Assoc(EncTag(no, 2), EncVarint(|raw|), raw);
    }
  }

  lemma OneItem(it: Item)
    ensures EncItems([it]) == EncItem(it)
  {
    assert [it][1..] == [];
    assert EncItems([it]) == EncItem(it) + EncItems([]);
  }

  lemma OnePut(p: Put)
    ensures match p
            case U64Put(no, v) => EncItems(Wanted([p])) == if v == 0 then [] else EncTag(no, 0) + EncVarint(v)
            case BytesPut(no, raw) =>
              EncItems(Wanted([p])) == if raw == [] then [] else EncTag(no, 2) + (EncVarint(|raw|) + raw)
  {
    assert [p][1..] == [];
    match p
    case U64Put(no, v) => OneItem(Varint(no, v));
    case BytesPut(no, raw) => OneItem(Chunk(no, raw));
  }

  /** The most a put can take: two varints, and the bytes. */
  function Bulk(p: Put): nat {
    20 + if p.BytesPut? then |p.raw| else 0
  }

  function Bulks(puts: seq<Put>): nat {
    if puts == [] then 0 else Bulks(puts[..|puts| - 1]) + Bulk(puts[|puts| - 1])
  }

  lemma BulksStep(puts: seq<Put>, i: nat)
    requires i < |puts|
    ensures Bulks(puts[..i + 1]) == Bulks(puts[..i]) + Bulk(puts[i]) && Bulks(puts[..i + 1]) <= Bulks(puts)
  {
    assert puts[..i + 1][..i] == puts[..i];
    BulksGrow(puts, i + 1);
  }

  lemma {:induction false} BulksGrow(puts: seq<Put>, i: nat)
    requires i <= |puts|
    ensures Bulks(puts[..i]) <= Bulks(puts)
    decreases |puts| - i
  {
    if i == |puts| {
      assert puts[..i] == puts;
    } else {
      assert puts[..i + 1][..i] == puts[..i];
      BulksGrow(puts, i + 1);
    }
  }

  /** A message encoder: one put after another into a fresh buffer. Given memory
      for it, encoding succeeds. */
  method EncodeMessage(puts: seq<Put>, memory: nat) returns (ok: bool, out: Bytes)
    requires forall i :: 0 <= i < |puts| ==> Fits(puts[i])
    ensures ok ==> out == EncItems(Wanted(puts))
    ensures ok ==> forall known: Table :: (forall i :: 0 <= i < |puts| ==> Agrees(known, puts[i])) ==>
                     Decode(known, out) == Message(Known(known, Wanted(puts)))
    ensures memory >= 256 && memory >= 2 * Bulks(puts) ==> ok
  {
    var b := new Buffer(memory);
    var i := 0;
    while i < |puts|
      invariant 0 <= i <= |puts| && b.Valid() && fresh(b) && fresh(b.p)
      invariant !b.oom ==> b.Contents() == EncItems(Wanted(puts[..i]))
      invariant b.memory == memory && b.len <= Bulks(puts[..i])
      invariant memory >= 256 && memory >= 2 * Bulks(puts) ==> !b.oom
    {
      var p := puts[i];
      BulksStep(puts, i);
      PutsStep(puts, i);
      PutOne(b, p);
      i := i + 1;
    }
    assert puts[..i] == puts;
    forall known: Table | forall i :: 0 <= i < |puts| ==> Agrees(known, puts[i])
      ensures Decode(known, EncItems(Wanted(puts))) == Message(Known(known, Wanted(puts)))
    {
      MessageRoundTrip(known, puts);
    }
    return !b.oom, b.p[..b.len];
  }

  method PutOne(b: Buffer, p: Put)
    requires b.Valid() && Fits(p)
    modifies b, b.p
    ensures b.Valid() && (old(b.oom) ==> b.oom) && (b.p == old(b.p) || fresh(b.p))
    ensures !b.oom ==> b.Contents() == old(b.Contents()) + EncItems(Wanted([p]))
    ensures b.memory == old(b.memory) && b.len <= old(b.len) + Bulk(p)
    ensures !old(b.oom) && b.Enough(old(b.len) + Bulk(p)) ==> !b.oom
  {
    match p
    case U64Put(no, v) => b.PutU64(no, v);
    case BytesPut(no, raw) => b.PutBytes(no, raw);
  }

  lemma PutsStep(puts: seq<Put>, i: nat)
    requires i < |puts|
    ensures EncItems(Wanted(puts[..i + 1])) == EncItems(Wanted(puts[..i])) + EncItems(Wanted([puts[i]]))
  {
    assert puts[..i + 1] == puts[..i] + [puts[i]];
    WantedAppend(puts[..i], puts[i]);
    EncItemsAppend(Wanted(puts[..i]), Wanted([puts[i]]));
  }

  // ---------------------------------------------------------------------
  // The decoder's cursor
  // ---------------------------------------------------------------------

  class Cursor {
    const data: Bytes
    var p: nat
    var err: bool

    ghost predicate Valid()
      reads this
    {
      p <= |data|
    }

    ghost function Rest(): Bytes
      requires Valid()
      reads this
    {
      data[p..]
    }

    constructor (data: Bytes)
      ensures Valid() && Rest() == data && !err && this.data == data
    {
      this.data := data;
      p, err := 0, false;
    }

    method GetVarint() returns (v: nat)
      requires Valid() && !err
      modifies this
      ensures Valid()
      ensures var g := DecVarint(old(Rest())); if g.Got? then !err && v == g.value && Rest() == g.rest else err
    {
      v := 0;
      var k, pow := 0, 1;
      ghost var whole := DecVarint(Rest());
      while p < |data| && k < U64_POWERS
        invariant Valid() && !err && 0 <= k <= U64_POWERS && pow == Pow128(k)
        invariant whole == DecFrom(data[p..], k, v)
        decreases |data| - p
      {
        var byte := data[p];
        assert data[p..][1..] == data[p + 1..];
        p := p + 1;
        v := v + (byte % 128 * pow) % U64;
        if byte < 128 { return; }
        k, pow := k + 1, 128 * pow;
      }
      err := true;
      v := 0;
    }

    method Next() returns (more: bool, no: nat, wt: nat)
      requires Valid() && !err
      modifies this
      ensures Valid()
      ensures old(Rest()) == [] ==> !more && !err && Rest() == []
      ensures old(Rest()) != [] ==>
                var g := DecTag(old(Rest()));
                if g.Got? then more && !err && no == g.value.no && wt == g.value.wt && Rest() == g.rest
                else !more && err
    {
      more, no, wt := false, 0, 0;
      if p >= |data| { return; }
      var key := GetVarint();
      if err { return; }
      no, wt := key / 8 % U32, key % 8;
      if no == 0 {
        err := true;
        return;
      }
      more := true;
    }

    method GetLen() returns (ok: bool, raw: Bytes)
      requires Valid() && !err
      modifies this
      ensures Valid()
      ensures var g := DecLen(old(Rest())); if g.Got? then ok && !err && raw == g.value && Rest() == g.rest else !ok && err
    {
      raw := [];
      var len := GetVarint();
      if err || len > |data| - p {
        err := true;
        return false, raw;
      }
      ghost var rest := Rest();
      raw := data[p..p + len];
      assert raw == rest[..len] && data[p + len..] == rest[len..];
      p := p + len;
      return true, raw;
    }

    /** Skipping a field of any wire type moves over exactly its body. */
    method Skip(no: nat, wt: nat)
      requires Valid() && !err
      modifies this
      ensures Valid()
      ensures var g := DecBody(Tag(no, wt), old(Rest())); if g.Got? then !err && Rest() == g.rest else err
    {
      ghost var rest := Rest();
      if wt == 0 {
        var _ := GetVarint();
      } else if wt == 1 {
        SkipFixed(8);
      } else if wt == 2 {
        var _, _ := GetLen();
      } else if wt == 5 {
        SkipFixed(4);
      } else {
        err := true;
      }
    }

    method SkipFixed(n: nat)
      requires Valid() && !err
      modifies this
      ensures Valid()
      ensures var g := Take(old(Rest()), n); if g.Got? then !err && Rest() == g.rest else err
    {
      ghost var rest := Rest();
      if |data| - p < n {
        err := true;
      } else {
        p := p + n;
        assert Rest() == rest[n..];
      }
    }
  }

  /** The switch of one turn: the number picks the getter, or the field is
      skipped by its wire type. */
  method Deliver(known: Table, c: Cursor, no: nat, wt: nat, items: seq<Item>) returns (ok: bool, items': seq<Item>)
    requires c.Valid() && !c.err
    modifies c
    ensures c.Valid() && ok == !c.err
    ensures known(no).None? ==>
              var g := DecBody(Tag(no, wt), old(c.Rest()));
              if g.Got? then ok && c.Rest() == g.rest && items' == items else !ok
    ensures known(no).Some? ==>
              var g := Fetch(known(no).value, no, old(c.Rest()));
              if g.Got? then ok && c.Rest() == g.rest && items' == items + [g.value] else !ok
  {
    items' := items;
    match known(no) {
      case Some(NumberGetter) =>
        var v := c.GetVarint();
        if !c.err { items' := items + [Varint(no, v)]; }
      case Some(BytesGetter) =>
        var got, raw := c.GetLen();
        if got { items' := items + [Chunk(no, raw)]; }
      case None =>
        c.Skip(no, wt);
    }
    ok := !c.err;
  }

  function Prefixed(items: seq<Item>, m: Message): Message {
    if m.Rejected? then Rejected else Message(items + m.items)
  }

  lemma DecodeStep(known: Table, items: seq<Item>, s: Bytes)
    requires s != []
    ensures var g := DecField(known, s);
            Prefixed(items, Decode(known, s)) ==
              if g.Malformed? then Rejected else Prefixed(Added(items, g.value), Decode(known, g.rest))
  {
    var g := DecField(known, s);
    if g.Got? {
      var tail := Decode(known, g.rest);
      if tail.Message? && g.value.Some? {
        assert items + [g.value.value] + tail.items == items + ([g.value.value] + tail.items);
      }
    }
  }

  method NextField(known: Table, c: Cursor, items: seq<Item>) returns (more: bool, items': seq<Item>)
    requires c.Valid() && !c.err
    modifies c
    ensures c.Valid() && (more ==> !c.err)
    ensures old(c.Rest()) == [] ==> !more && !c.err && items' == items
    ensures old(c.Rest()) != [] ==>
              var g := DecField(known, old(c.Rest()));
              if g.Got? then more && c.Rest() == g.rest && items' == Added(items, g.value)
              else !more && c.err
  {
    items' := items;
    var no, wt;
    more, no, wt := c.Next();
    if more {
      more, items' := Deliver(known, c, no, wt, items);
    }
  }

  /** The loop every message decoder runs, on arbitrary bytes. */
  method DecodeMessage(known: Table, data: Bytes) returns (m: Message)
    ensures m == Decode(known, data)
  {
    var c := new Cursor(data);
    m := DecodeLoop(known, c);
  }

  method DecodeLoop(known: Table, c: Cursor) returns (m: Message)
    requires c.Valid() && !c.err
    modifies c
    ensures m == Decode(known, old(c.Rest()))
  {
    var items: seq<Item> := [];
    ghost var whole := Decode(known, c.Rest());
    ghost var rest := c.Rest();
    var more := true;
    while more
      invariant c.Valid() && (more ==> !c.err)
      invariant more ==> rest == c.Rest() && whole == Prefixed(items, Decode(known, rest))
      invariant !more ==> whole == if c.err then Rejected else Message(items)
      decreases more, |rest|
    {
      if rest != [] { DecodeStep(known, items, rest); }
      more, items := NextField(known, c, items);
      rest := c.Rest();
    }
    return if c.err then Rejected else Message(items);
  }
}
