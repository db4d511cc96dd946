/** FujiBus packets: header with exact length and end-around-carry checksum, descriptors, fields and payload. */
module FujiFrame {
  import opened Basics
  import opened Slip

  const HEADER: nat := 6
  const SECTOR_SIZE: nat := 512
  const MULTI_SECTORS: nat := 16
  const PATH_LEN: nat := 256
  const DEC_MAX: nat := HEADER + 4 + MULTI_SECTORS * SECTOR_SIZE
  const ENC_MAX: nat := DEC_MAX * 2 + 2
  const U8_DEC_MAX: nat := HEADER + 4 + PATH_LEN

  datatype Frame = Frame(device: byte, command: byte, params: seq<nat>, payload: seq<byte>)

  // ---------------------------------------------------------------- checksum

  function Sum(bytes: seq<byte>): nat {
    if bytes == [] then 0 else Sum(bytes[..|bytes| - 1]) + bytes[|bytes| - 1]
  }

  /** What folding every carry back in leaves of a sum. */
  function Fold(sum: nat): byte {
    if sum == 0 then 0 else 1 + (sum - 1) % 255
  }

  lemma FoldStep(sum: nat, b: byte)
    ensures var c := Fold(sum) + b; c < 0x200 && c / 256 + c % 256 == Fold(sum + b)
  {
    if sum > 0 {
      var q, r := (sum - 1) / 255, (sum - 1) % 255;
      assert sum + b - 1 == q * 255 + (r + b);
      if r + b < 255 {
        assert (sum + b - 1) % 255 == r + b;
      } else {
        assert (sum + b - 1) % 255 == r + b - 255;
      }
    }
  }

  lemma {:induction false} SumAppend(a: seq<byte>, b: seq<byte>)
    ensures Sum(a + b) == Sum(a) + Sum(b)
    decreases |b|
  {
    if b == [] {
      assert a + b == a;
    } else {
      assert (a + b)[..|a + b| - 1] == a + b[..|b| - 1];
      SumAppend(a, b[..|b| - 1]);
    }
  }

  /** Changing one byte changes the sum by the difference. */
  lemma SumUpdate(bytes: seq<byte>, p: nat, v: byte)
    requires p < |bytes|
    ensures Sum(bytes[p := v]) == Sum(bytes) - bytes[p] + v
  {
    var a, b := bytes[..p], bytes[p + 1..];
    assert bytes == a + [bytes[p]] + b && bytes[p := v] == a + [v] + b;
    SumAppend(a + [bytes[p]], b);
    SumAppend(a + [v], b);
    SumAppend(a, [bytes[p]]);
    SumAppend(a, [v]);
    assert Sum([v]) == v && Sum([bytes[p]]) == bytes[p] by {
      assert [v][..0] == [] && [bytes[p]][..0] == [];
    }
  }

  lemma SumAtLeast(bytes: seq<byte>, p: nat, q: nat)
    requires p < |bytes| && q < |bytes| && p != q
    ensures Sum(bytes) >= bytes[p] as int + bytes[q] as int
  {
    SumUpdate(bytes, p, 0);
    SumUpdate(bytes[p := 0], q, 0);
  }

  method Checksum(buf: array<byte>, len: nat) returns (chk: byte)
    requires len <= buf.Length
    ensures chk == Fold(Sum(buf[..len]))
  {
    var c: nat := 0;
    for i := 0 to len
      invariant c < 256 && c == Fold(Sum(buf[..i]))
    {
      assert buf[..i + 1][..i] == buf[..i];
      FoldStep(Sum(buf[..i]), buf[i]);
      c := c + buf[i];
      assert c < 0x1_0000;
      c := c / 256 + c % 256;
    }
    chk := c;
  }

  // ---------------------------------------------------------------- packets

  /** Length and checksum put into a packet whose checksum byte is still 0. */
  function Stamped(bytes: seq<byte>): (packet: seq<byte>)
    requires |bytes| >= HEADER
    ensures |packet| == |bytes|
  {
    var sized := bytes[2 := |bytes| % 256][3 := |bytes| / 256 % 256][4 := 0];
    sized[4 := Fold(Sum(sized))]
  }

  function Packet(device: byte, command: byte, descriptor: byte, fields: seq<byte>, payload: seq<byte>)
    : (packet: seq<byte>)
    ensures |packet| == HEADER + |fields| + |payload|
  {
    Stamped([device, command, 0, 0, 0, descriptor] + fields + payload)
  }

  /** Two requests byte by byte: the link probe, and a READ_MULTI of sixteen sectors from 0x44 on. */
  lemma RequestBytes()
    ensures Packet(0x70, 0xFA, 0, [], []) == [0x70, 0xFA, 0x06, 0x00, 0x71, 0x00]
    ensures Packet(0x31, 0x72, 7, Le32(0x1000_0044), [])
            == [0x31, 0x72, 0x0A, 0x00, 0x09, 0x07, 0x44, 0x00, 0x00, 0x10]
  {
    var probe: seq<byte> := [0x70, 0xFA, 0x06, 0x00, 0x00, 0x00];
    var raw: seq<byte> := [0x70, 0xFA, 0, 0, 0, 0] + [] + [];
    SumOfSix(0x70, 0xFA, 0x06, 0, 0, 0);
    assert raw[2 := 6][3 := 0][4 := 0] == probe;
    assert Stamped(raw) == probe[4 := Fold(Sum(probe))] == probe[4 := 0x71];

    var fields: seq<byte> := [0x44, 0x00, 0x00, 0x10];
    var read: seq<byte> := [0x31, 0x72, 0x0A, 0x00, 0x00, 0x07] + fields;
    raw := [0x31, 0x72, 0, 0, 0, 7] + fields + [];
    assert Le32(0x1000_0044) == fields;
    SumOfSix(0x31, 0x72, 0x0A, 0, 0, 7);
    SumOfFour(0x44, 0, 0, 0x10);
    SumAppend([0x31, 0x72, 0x0A, 0, 0, 7], fields);
    assert raw[2 := 10][3 := 0][4 := 0] == read;
    assert Stamped(raw) == read[4 := Fold(Sum(read))] == read[4 := 0x09];
  }

  lemma SumOneMore(bytes: seq<byte>, b: byte)
    ensures Sum(bytes + [b]) == Sum(bytes) + b
  {
    assert (bytes + [b])[..|bytes|] == bytes;
  }

  lemma SumOfFour(a: byte, b: byte, c: byte, d: byte)
    ensures Sum([a, b, c, d]) == a + b + c + d
  {
    SumOneMore([], a);
    SumOneMore([a], b);
    SumOneMore([a, b], c);
    SumOneMore([a, b, c], d);
    assert [] + [a] == [a] && [a] + [b] == [a, b] && [a, b] + [c] == [a, b, c] && [a, b, c] + [d] == [a, b, c, d];
  }

  lemma SumOfSix(a: byte, b: byte, c: byte, d: byte, e: byte, f: byte)
    ensures Sum([a, b, c, d, e, f]) == a + b + c + d + e + f
  {
    SumOfFour(a, b, c, d);
    SumOneMore([a, b, c, d], e);
    SumOneMore([a, b, c, d, e], f);
    assert [a, b, c, d] + [e] == [a, b, c, d, e] && [a, b, c, d, e] + [f] == [a, b, c, d, e, f];
  }

  predicate HeaderOk(bytes: seq<byte>) {
    && |bytes| >= HEADER && bytes[2] as int + 0x100 * bytes[3] as int == |bytes|
    && Fold(Sum(bytes[4 := 0])) == bytes[4]
  }

  lemma StampedOk(bytes: seq<byte>)
    requires HEADER <= |bytes| < 0x1_0000
    ensures HeaderOk(Stamped(bytes))
    ensures forall k :: 0 <= k < |bytes| && k !in {2, 3, 4} ==> Stamped(bytes)[k] == bytes[k]
  {
    var sized := bytes[2 := |bytes| % 256][3 := |bytes| / 256 % 256][4 := 0];
    assert Stamped(bytes)[4 := 0] == sized;
  }

  /** A one-byte change the parser cannot see: 0x00 and 0xFF are the same to the checksum. */
  predicate Invisible(bytes: seq<byte>, p: nat, v: byte)
    requires p < |bytes|
  {
    p !in {2, 3, 4} && ((bytes[p] == 0 && v == 0xFF) || (bytes[p] == 0xFF && v == 0))
  }

  /** Of all one-byte changes of a good packet the header check passes exactly the invisible ones. */
  lemma OneByteChange(bytes: seq<byte>, p: nat, v: byte)
    requires HeaderOk(bytes) && p < |bytes| && v != bytes[p]
    ensures HeaderOk(bytes[p := v]) <==> Invisible(bytes, p, v)
  {
    var bad := bytes[p := v];
    if p == 4 {
      assert bad[4 := 0] == bytes[4 := 0];
    } else if p != 2 && p != 3 {
      var zeroed := bytes[4 := 0];
      assert bad[4 := 0] == zeroed[p := v];
      SumUpdate(zeroed, p, v);
      assert zeroed[2] as int + zeroed[3] as int > 0;
      SumAtLeast(zeroed, p, 2);
      SumAtLeast(zeroed, p, 3);
      SumAtLeast(zeroed[p := v], p, 2);
      SumAtLeast(zeroed[p := v], p, 3);
      FoldEqual(Sum(zeroed), Sum(zeroed[p := v]));
    }
  }

  lemma FoldEqual(s: nat, t: nat)
    requires s > 0 && t > 0 && -256 < t - s < 256
    ensures Fold(s) == Fold(t) <==> t - s in {-255, 0, 255}
  {
    var q, r := (s - 1) / 255, (s - 1) % 255;
    var q', r' := (t - 1) / 255, (t - 1) % 255;
    assert t - s == (q' - q) * 255 + (r' - r);
  }

  // ---------------------------------------------------------------- parsing

  function LeValue(bytes: seq<byte>): nat {
    if bytes == [] then 0 else bytes[0] + 256 * LeValue(bytes[1..])
  }

  function Le32(v: nat): seq<byte> {
    [v % 0x100, v / 0x100 % 0x100, v / 0x1_0000 % 0x100, v / 0x100_0000 % 0x100]
  }

  lemma Le32Value(v: nat)
    requires v < 0x1_0000_0000
    ensures LeValue(Le32(v)) == v
  {
    var a: byte, b: byte := v % 0x100, v / 0x100 % 0x100;
    var c: byte, d: byte := v / 0x1_0000 % 0x100, v / 0x100_0000 % 0x100;
    assert Le32(v)[1..] == [b, c, d];
    assert [b, c, d][1..] == [c, d];
    assert [c, d][1..] == [d];
    assert LeValue([d]) == d;
    assert LeValue([c, d]) == c as int + 0x100 * LeValue([d]);
    assert LeValue([b, c, d]) == b as int + 0x100 * LeValue([c, d]);
    assert v / 0x1_0000 == v / 0x100 / 0x100 && v / 0x100_0000 == v / 0x100 / 0x100 / 0x100;
  }

  function FieldSize(descriptor: byte): nat {
    match descriptor % 8
    case 0 => 0
    case 5 => 2
    case 6 => 2
    case 7 => 4
    case _ => 1
  }

  function FieldCount(descriptor: byte): nat {
    match descriptor % 8
    case 0 => 0
    case 2 => 2
    case 3 => 3
    case 4 => 4
    case 6 => 2
    case _ => 1
  }

  datatype Cut<T> = Cut(items: seq<T>, off: nat)

  /** Descriptors go on while the last one has bit 7 set; eight at most. */
  function Descriptors(bytes: seq<byte>, off: nat, sofar: seq<byte>): (cut: Option<Cut<byte>>)
    requires 1 <= |sofar| <= 8
    ensures cut.Some? && off <= |bytes| ==> cut.value.off <= |bytes|
    decreases 8 - |sofar|
  {
    if sofar[|sofar| - 1] < 0x80 then Some(Cut(sofar, off))
    else if off >= |bytes| || |sofar| == 8 then None
    else Descriptors(bytes, off + 1, sofar + [bytes[off]])
  }

  /** `count` little-endian fields of `size` bytes. */
  function FieldRun(bytes: seq<byte>, off: nat, count: nat, size: nat, sofar: seq<nat>): (cut: Option<Cut<nat>>)
    ensures cut.Some? && off <= |bytes| ==> off <= cut.value.off <= |bytes|
    decreases count
  {
    if count == 0 then Some(Cut(sofar, off))
    else if off + size > |bytes| then None
    else FieldRun(bytes, off + size, count - 1, size, sofar + [LeValue(bytes[off..off + size])])
  }

  function Fields(bytes: seq<byte>, off: nat, descriptors: seq<byte>, sofar: seq<nat>): (cut: Option<Cut<nat>>)
    ensures cut.Some? && off <= |bytes| ==> cut.value.off <= |bytes|
    decreases |descriptors|
  {
    if descriptors == [] then Some(Cut(sofar, off))
    else
      match FieldRun(bytes, off, FieldCount(descriptors[0]), FieldSize(descriptors[0]), sofar)
      case None => None
      case Some(cut) => Fields(bytes, cut.off, descriptors[1..], cut.items)
  }

  /** Only four parameters are kept; the others are passed over. */
  function Kept(params: seq<nat>): seq<nat> {
    if |params| <= 4 then params else params[..4]
  }

  function Pow256(n: nat): nat {
    if n == 0 then 1 else 0x100 * Pow256(n - 1)
  }

  lemma {:induction false} LeAppend(bytes: seq<byte>, b: byte)
    ensures LeValue(bytes + [b]) == LeValue(bytes) + Pow256(|bytes|) * b
  {
    if bytes == [] {
      assert ([] + [b])[1..] == [];
    } else {
      assert (bytes + [b])[1..] == bytes[1..] + [b];
      LeAppend(bytes[1..], b);
    }
  }

  /** Descriptors, fields and payload of a packet whose header is good. */
  function Contents(bytes: seq<byte>): Option<Frame>
    requires |bytes| >= HEADER
  {
    match Descriptors(bytes, HEADER, [bytes[5]])
    case None => None
    case Some(ds) =>
      match Fields(bytes, ds.off, ds.items, [])
      case None => None
      case Some(fs) => Some(Frame(bytes[0], bytes[1], Kept(fs.items), bytes[fs.off..]))
  }

  /** The checksum byte is cleared before anything else is read. */
  function Parsed(bytes: seq<byte>): Option<Frame> {
    if HeaderOk(bytes) then Contents(bytes[4 := 0]) else None
  }

  /** A wire frame is parsed when it decodes into the scratch space and the packet inside is good. */
  function ParsedWire(input: seq<byte>, cap: nat): Option<Frame> {
    match Decoded(input)
    case None => None
    case Some(bytes) => if |bytes| <= cap then Parsed(bytes) else None
  }

  // ---------------------------------------------------------------- round trips

  lemma PacketRest(device: byte, command: byte, descriptor: byte, fields: seq<byte>, payload: seq<byte>)
    requires HEADER + |fields| + |payload| < 0x1_0000
    ensures HeaderOk(Packet(device, command, descriptor, fields, payload))
    ensures var body := Packet(device, command, descriptor, fields, payload)[4 := 0];
            LaidOut(body, device, command, descriptor, fields, payload)
  {
    StampedOk([device, command, 0, 0, 0, descriptor] + fields + payload);
  }

  /** `body` is laid out as a header, one descriptor's fields, and the payload. */
  predicate LaidOut(body: seq<byte>, device: byte, command: byte, descriptor: byte, fields: seq<byte>,
                    payload: seq<byte>)
  {
    && |body| == HEADER + |fields| + |payload| && body[0] == device && body[1] == command && body[5] == descriptor
    && body[HEADER..HEADER + |fields|] == fields && body[HEADER + |fields|..] == payload
  }

  lemma ContentsOne(body: seq<byte>, frame: Frame, descriptor: byte, fields: seq<byte>)
    requires LaidOut(body, frame.device, frame.command, descriptor, fields, frame.payload)
    requires descriptor < 8 && |frame.params| <= 4
    requires FieldRun(body, HEADER, FieldCount(descriptor), FieldSize(descriptor), [])
             == Some(Cut(frame.params, HEADER + |fields|))
    ensures Contents(body) == Some(frame)
  {
    var one: seq<byte> := [descriptor];
    assert Descriptors(body, HEADER, one) == Some(Cut(one, HEADER));
    assert one[1..] == [];
    assert Fields(body, HEADER, one, []) == Fields(body, HEADER + |fields|, [], frame.params);
  }

  lemma ContentsWord(body: seq<byte>, frame: Frame, v: nat)
    requires v < 0x1_0000_0000 && frame.params == [v]
    requires LaidOut(body, frame.device, frame.command, 7, Le32(v), frame.payload)
    ensures Contents(body) == Some(frame)
  {
    WordField(body, HEADER, v);
    ContentsOne(body, frame, 7, Le32(v));
  }

  lemma ContentsBytes(body: seq<byte>, frame: Frame, params: seq<byte>)
    requires 1 <= |params| <= 4 && LaidOut(body, frame.device, frame.command, |params|, params, frame.payload)
    requires frame.params == params
    ensures Contents(body) == Some(frame)
  {
    ByteFields(body, HEADER, params, []);
    ByteDescriptor(|params|);
    Widened(params);
    ContentsOne(body, frame, |params|, params);
  }

  /** A request with one 32-bit parameter comes back as built. */
  lemma ParseWord(device: byte, command: byte, param: nat, payload: seq<byte>)
    requires param < 0x1_0000_0000 && HEADER + 4 + |payload| < 0x1_0000
    ensures Parsed(Packet(device, command, 7, Le32(param), payload)) == Some(Frame(device, command, [param], payload))
  {
    PacketRest(device, command, 7, Le32(param), payload);
    var body := Packet(device, command, 7, Le32(param), payload)[4 := 0];
    ContentsWord(body, Frame(device, command, [param], payload), param);
  }

  lemma ParsePlain(device: byte, command: byte, payload: seq<byte>)
    requires HEADER + |payload| < 0x1_0000
    ensures Parsed(Packet(device, command, 0, [], payload)) == Some(Frame(device, command, [], payload))
  {
    PacketRest(device, command, 0, [], payload);
    ContentsOne(Packet(device, command, 0, [], payload)[4 := 0], Frame(device, command, [], payload), 0, []);
  }

  /** One to four single-byte parameters come back as built. */
  lemma ParseBytes(device: byte, command: byte, params: seq<byte>, payload: seq<byte>)
    requires 1 <= |params| <= 4 && HEADER + |params| + |payload| < 0x1_0000
    ensures Parsed(Packet(device, command, |params|, params, payload)) == Some(Frame(device, command, params, payload))
  {
    PacketRest(device, command, |params|, params, payload);
    var body := Packet(device, command, |params|, params, payload)[4 := 0];
    ContentsBytes(body, Frame(device, command, params, payload), params);
  }

  function Le16(v: nat): seq<byte> {
    [v % 0x100, v / 0x100 % 0x100]
  }

  lemma ShortField(bytes: seq<byte>, off: nat, count: nat, v: nat, sofar: seq<nat>)
    requires v < 0x1_0000 && off + 2 <= |bytes| && bytes[off..off + 2] == Le16(v) && count > 0
    ensures FieldRun(bytes, off, count, 2, sofar) == FieldRun(bytes, off + 2, count - 1, 2, sofar + [v])
  {
    var low: byte, high: byte := v % 0x100, v / 0x100 % 0x100;
    assert Le16(v)[1..] == [high] && LeValue([high]) == high;
    assert LeValue(Le16(v)) == low as int + 0x100 * LeValue([high]);
  }

  lemma ContentsShort(body: seq<byte>, frame: Frame, a: nat)
    requires a < 0x1_0000 && frame.params == [a]
    requires LaidOut(body, frame.device, frame.command, 5, Le16(a), frame.payload)
    ensures Contents(body) == Some(frame)
  {
    ShortField(body, HEADER, 1, a, []);
    Widened([a]);
    ContentsOne(body, frame, 5, Le16(a));
  }

  lemma ContentsShorts(body: seq<byte>, frame: Frame, a: nat, b: nat)
    requires a < 0x1_0000 && b < 0x1_0000 && frame.params == [a, b]
    requires LaidOut(body, frame.device, frame.command, 6, Le16(a) + Le16(b), frame.payload)
    ensures Contents(body) == Some(frame)
  {
    var fields := body[HEADER..HEADER + 4];
    assert body[HEADER..HEADER + 2] == fields[..2] == Le16(a) && body[HEADER + 2..HEADER + 4] == fields[2..] == Le16(b);
    ShortField(body, HEADER, 2, a, []);
    ShortField(body, HEADER + 2, 1, b, [] + [a]);
    assert [] + [a] + [b] == [a, b];
    ContentsOne(body, frame, 6, Le16(a) + Le16(b));
  }

  /** A 16-bit parameter, which the parser knows too, comes back as sent. */
  lemma ParseShort(device: byte, command: byte, a: nat, payload: seq<byte>)
    requires a < 0x1_0000 && HEADER + 2 + |payload| < 0x1_0000
    ensures Parsed(Packet(device, command, 5, Le16(a), payload)) == Some(Frame(device, command, [a], payload))
  {
    PacketRest(device, command, 5, Le16(a), payload);
    var body := Packet(device, command, 5, Le16(a), payload)[4 := 0];
    ContentsShort(body, Frame(device, command, [a], payload), a);
  }

  /** So do two of them. */
  lemma ParseShorts(device: byte, command: byte, a: nat, b: nat, payload: seq<byte>)
    requires a < 0x1_0000 && b < 0x1_0000 && HEADER + 4 + |payload| < 0x1_0000
    ensures Parsed(Packet(device, command, 6, Le16(a) + Le16(b), payload))
            == Some(Frame(device, command, [a, b], payload))
  {
    PacketRest(device, command, 6, Le16(a) + Le16(b), payload);
    var body := Packet(device, command, 6, Le16(a) + Le16(b), payload)[4 := 0];
    ContentsShorts(body, Frame(device, command, [a, b], payload), a, b);
  }

  lemma ContentsChained(body: seq<byte>, frame: Frame, v: nat, b: byte)
    requires v < 0x1_0000_0000 && frame.params == [v, b] && |body| == HEADER + 6 + |frame.payload|
    requires body[0] == frame.device && body[1] == frame.command && body[5] == 0x87 && body[6] == 1
    requires body[7..11] == Le32(v) && body[11..12] == [b] && body[12..] == frame.payload
    ensures Contents(body) == Some(frame)
  {
    var first: seq<byte>, chain: seq<byte>, last: seq<byte> := [0x87], [0x87, 1], [1];
    assert first + [body[6]] == chain;
    assert Descriptors(body, 6, first) == Descriptors(body, 7, chain);
    assert Descriptors(body, 7, chain) == Some(Cut(chain, 7));
    WordField(body, 7, v);
    ByteField(body, 11, b, v);
    assert chain[1..] == last && last[1..] == [];
    assert Fields(body, 7, chain, []) == Fields(body, 11, last, [v]);
    assert Fields(body, 11, last, [v]) == Fields(body, 12, [], [v, b]);
  }

  /** A descriptor with bit 7 set is followed by another one, whose parameters come behind its own. */
  lemma ParseChained(device: byte, command: byte, v: nat, b: byte, payload: seq<byte>)
    requires v < 0x1_0000_0000 && HEADER + 6 + |payload| < 0x1_0000
    ensures Parsed(Packet(device, command, 0x87, [1] + Le32(v) + [b], payload))
            == Some(Frame(device, command, [v, b], payload))
  {
    var fields: seq<byte> := [1] + Le32(v) + [b];
    PacketRest(device, command, 0x87, fields, payload);
    var body := Packet(device, command, 0x87, fields, payload)[4 := 0];
    ChainedLayout(body, v, b);
    ContentsChained(body, Frame(device, command, [v, b], payload), v, b);
  }

  lemma ChainedLayout(body: seq<byte>, v: nat, b: byte)
    requires |body| >= HEADER + 6 && body[HEADER..HEADER + 6] == [1] + Le32(v) + [b]
    ensures body[6] == 1 && body[7..11] == Le32(v) && body[11..12] == [b]
  {
    var fields := body[HEADER..HEADER + 6];
    assert forall k :: 0 <= k < 6 ==> fields[k] == body[6 + k];
    assert body[7..11] == fields[1..5];
    assert body[11..12] == fields[5..6];
    assert fields[1..5] == Le32(v) && fields[5..6] == [b];
  }

  lemma ByteField(bytes: seq<byte>, off: nat, b: byte, v: nat)
    requires off + 1 <= |bytes| && bytes[off..off + 1] == [b]
    ensures FieldRun(bytes, off, 1, 1, [v]) == Some(Cut([v, b], off + 1))
  {
    ByteFields(bytes, off, [b], [v]);
    assert [v] + [b] == [v, b];
  }

  lemma WordField(bytes: seq<byte>, off: nat, v: nat)
    requires v < 0x1_0000_0000 && off + 4 <= |bytes| && bytes[off..off + 4] == Le32(v)
    ensures FieldRun(bytes, off, 1, 4, []) == Some(Cut([v], off + 4))
  {
    Le32Value(v);
    Widened([v]);
    assert FieldRun(bytes, off, 1, 4, []) == FieldRun(bytes, off + 4, 0, 4, [v]);
  }

  lemma ByteDescriptor(n: nat)
    requires 1 <= n <= 4
    ensures FieldCount(n) == n && FieldSize(n) == 1
  {
  }

  lemma Widened(params: seq<nat>)
    ensures [] + params == params
  {
  }

  lemma {:induction false} ByteFields(bytes: seq<byte>, off: nat, params: seq<byte>, sofar: seq<nat>)
    requires off + |params| <= |bytes| && bytes[off..off + |params|] == params
    ensures FieldRun(bytes, off, |params|, 1, sofar) == Some(Cut(sofar + params, off + |params|))
    decreases |params|
  {
    if params == [] {
      assert sofar + params == sofar;
    } else {
      var first: seq<byte> := bytes[off..off + 1];
      assert params[0] == bytes[off..off + |params|][0] == first[0];
      assert first[1..] == [] && LeValue(first) == first[0];
      assert bytes[off + 1..off + |params|] == params[1..];
      ByteFields(bytes, off + 1, params[1..], sofar + [params[0]]);
      assert sofar + [params[0]] + params[1..] == sofar + params;
    }
  }

  /** Whatever is good as a packet is good on the wire, behind noise and in front of anything. */
  lemma ParseEncoded(noise: seq<byte>, packet: seq<byte>, after: seq<byte>, cap: nat)
    requires END !in noise && |packet| <= cap
    ensures ParsedWire(noise + Encoded(packet) + after, cap) == Parsed(packet)
  {
    DecodeEncode(noise, packet, after);
  }

  /** Requests with no or one 32-bit parameter survive: built, encoded, surrounded by noise, decoded, parsed. */
  lemma RequestRoundTrip(noise: seq<byte>, device: byte, command: byte, param: Option<nat>, payload: seq<byte>,
                         after: seq<byte>, cap: nat)
    requires END !in noise && (param.Some? ==> param.value < 0x1_0000_0000) && |payload| < 0xFF00
    requires HEADER + (if param.Some? then 4 else 0) + |payload| <= cap
    ensures var packet := if param.Some? then Packet(device, command, 7, Le32(param.value), payload)
                          else Packet(device, command, 0, [], payload);
            ParsedWire(noise + Encoded(packet) + after, cap)
            == Some(Frame(device, command, if param.Some? then [param.value] else [], payload))
  {
    if param.Some? {
      ParseWord(device, command, param.value, payload);
      ParseEncoded(noise, Packet(device, command, 7, Le32(param.value), payload), after, cap);
    } else {
      ParsePlain(device, command, payload);
      ParseEncoded(noise, Packet(device, command, 0, [], payload), after, cap);
    }
  }

  /** So do control requests with one to four single-byte parameters. */
  lemma ControlRoundTrip(noise: seq<byte>, device: byte, command: byte, params: seq<byte>, payload: seq<byte>,
                         after: seq<byte>, cap: nat)
    requires END !in noise && 1 <= |params| <= 4 && |payload| < 0xFF00 && HEADER + |params| + |payload| <= cap
    ensures ParsedWire(noise + Encoded(Packet(device, command, |params|, params, payload)) + after, cap)
            == Some(Frame(device, command, params, payload))
  {
    ParseBytes(device, command, params, payload);
    ParseEncoded(noise, Packet(device, command, |params|, params, payload), after, cap);
  }

  /** A packet changed in one byte is refused, unless the change is one the checksum cannot see. */
  lemma AlteredRefused(packet: seq<byte>, p: nat, v: byte, cap: nat)
    requires HeaderOk(packet) && p < |packet| <= cap && v != packet[p] && !Invisible(packet, p, v)
    ensures ParsedWire(Encoded(packet[p := v]), cap) == None
  {
    OneByteChange(packet, p, v);
    ParseEncoded([], packet[p := v], [], cap);
    assert [] + Encoded(packet[p := v]) + [] == Encoded(packet[p := v]);
  }

  /** Every packet that fits the decode buffer fits the encode buffer. */
  lemma PacketFits(packet: seq<byte>)
    requires |packet| <= DEC_MAX
    ensures |Encoded(packet)| <= ENC_MAX && DEC_MAX == 8202 && ENC_MAX == 16406
  {
    EncodedSize(packet);
  }
}
