/** The FujiBus frame builder and parser as they work on buffers. */
module FujiCodec {
  import opened Basics
  import opened Slip
  import opened FujiFrame

  /** A buffer's first bytes, or nothing when there is no buffer. */
  function Given(payload: array?<byte>, len: nat): seq<byte>
    requires payload != null ==> len <= payload.Length
    reads payload
  {
    if payload == null then [] else payload[..len]
  }

  /** Length of what goes on the wire for a packet: 0 when packet or encoding does not fit. */
  function WireLength(packet: seq<byte>, decCap: nat, cap: nat): nat {
    if |packet| <= decCap && |Encoded(packet)| <= cap then |Encoded(packet)| else 0
  }

  method Copy(src: array<byte>, len: nat, dst: array<byte>, at: nat)
    requires len <= src.Length && at + len <= dst.Length && src != dst
    modifies dst
    ensures dst[..at + len] == old(dst[..at]) + src[..len]
  {
    for i := 0 to len
      invariant dst[..at + i] == old(dst[..at]) + src[..i]
    {
      dst[at + i] := src[i];
    }
  }

  /** Appends the payload, stamps length and checksum, and encodes. */
  method Finish(dec: array<byte>, decCap: nat, n: nat, payload: array?<byte>, payloadLen: nat,
                output: array<byte>, cap: nat) returns (len: nat)
    requires HEADER <= n <= decCap <= dec.Length && dec[4] == 0
    requires payload != null ==> payloadLen <= payload.Length && payload != dec
    requires cap <= output.Length && output != dec
    modifies dec, output
    ensures var packet := Stamped(old(dec[..n]) + old(Given(payload, payloadLen)));
            && len == WireLength(packet, decCap, cap)
            && (len > 0 ==> output[..len] == Encoded(packet))
  {
    ghost var body := dec[..n] + Given(payload, payloadLen);
    var total := n;
    if payload != null && payloadLen > 0 {
      if n + payloadLen > decCap { return 0; }
      Copy(payload, payloadLen, dec, n);
      total := n + payloadLen;
    }
    assert dec[..total] == body && body[4] == 0;
    dec[2] := total % 256;
    dec[3] := total / 256 % 256;
    assert dec[..total] == body[2 := |body| % 256][3 := |body| / 256 % 256][4 := 0];
    dec[4] := Checksum(dec, total);
    assert dec[..total] == Stamped(body);
    len := Encode(dec, total, output, cap);
  }

  /** A header whose length is still to come and whose checksum is 0. */
  method PutHeader(dec: array<byte>, device: byte, command: byte, descriptor: byte)
    requires dec.Length >= HEADER
    modifies dec
    ensures dec[..HEADER] == [device, command, old(dec[2]), old(dec[3]), 0, descriptor]
  {
    dec[0] := device;
    dec[1] := command;
    dec[4] := 0;
    dec[5] := descriptor;
  }

  class Framer {
    const dec: array<byte>
    const decU8: array<byte>

    predicate Valid() {
      dec.Length == DEC_MAX && decU8.Length == U8_DEC_MAX && dec != decU8
    }

    constructor ()
      ensures Valid() && fresh(dec) && fresh(decU8)
    {
      dec := new byte[DEC_MAX];
      decU8 := new byte[U8_DEC_MAX];
    }

    /** A request with no parameter or one 32-bit one. */
    method BuildFrame(device: byte, command: byte, param: Option<nat>, payload: array?<byte>, payloadLen: nat,
                      output: array<byte>, cap: nat) returns (len: nat)
      requires Valid() && (param.Some? ==> param.value < 0x1_0000_0000)
      requires payload != null ==> payloadLen <= payload.Length && payload != dec
      requires cap <= output.Length && output != dec
      modifies dec, output
      ensures var fields := if param.Some? then Le32(param.value) else [];
              var descriptor := if param.Some? then 7 else 0;
              var packet := Packet(device, command, descriptor, fields, old(Given(payload, payloadLen)));
              && len == WireLength(packet, DEC_MAX, cap)
              && (len > 0 ==> output[..len] == Encoded(packet))
    {
      PutHeader(dec, device, command, if param.Some? then 7 else 0);
      var n := HEADER;
      ghost var fields: seq<byte> := [];
      if param.Some? {
        var v := param.value;
        dec[6] := v % 0x100;
        dec[7] := v / 0x100 % 0x100;
        dec[8] := v / 0x1_0000 % 0x100;
        dec[9] := v / 0x100_0000 % 0x100;
        n := HEADER + 4;
        fields := Le32(v);
      }
      assert dec[..n] == [device, command, dec[2], dec[3], 0, dec[5]] + fields;
      PacketFrom(device, command, dec[2], dec[3], dec[5], fields, Given(payload, payloadLen));
      len := Finish(dec, DEC_MAX, n, payload, payloadLen, output, cap);
    }

    /** A control request with one to four single-byte parameters, built in its own smaller buffer. */
    method BuildFrameU8(device: byte, command: byte, params: array<byte>, nparams: nat, payload: array?<byte>,
                        payloadLen: nat, output: array<byte>, cap: nat) returns (len: nat)
      requires Valid() && nparams <= params.Length && params != decU8
      requires payload != null ==> payloadLen <= payload.Length && payload != decU8
      requires cap <= output.Length && output != decU8
      modifies decU8, output
      ensures nparams < 1 || nparams > 4 ==> len == 0
      ensures 1 <= nparams <= 4 ==>
                var packet := Packet(device, command, nparams, old(params[..nparams]), old(Given(payload, payloadLen)));
                && len == WireLength(packet, U8_DEC_MAX, cap)
                && (len > 0 ==> output[..len] == Encoded(packet))
    {
      if nparams < 1 || nparams > 4 { return 0; }
      PutHeader(decU8, device, command, nparams);
      ghost var head := decU8[..HEADER];
      Copy(params, nparams, decU8, HEADER);
      assert decU8[..HEADER + nparams] == head + params[..nparams];
      assert decU8[4] == decU8[..HEADER + nparams][4] == head[4];
      PacketFrom(device, command, head[2], head[3], nparams, params[..nparams], Given(payload, payloadLen));
      len := Finish(decU8, U8_DEC_MAX, HEADER + nparams, payload, payloadLen, output, cap);
    }
  }

  /** Length and checksum are overwritten, so what a reused buffer holds in the length bytes does not matter. */
  lemma PacketFrom(device: byte, command: byte, low: byte, high: byte, descriptor: byte, fields: seq<byte>,
                   payload: seq<byte>)
    ensures Stamped([device, command, low, high, 0, descriptor] + fields + payload)
            == Packet(device, command, descriptor, fields, payload)
  {
    var used: seq<byte> := [device, command, low, high, 0, descriptor] + fields + payload;
    var clean: seq<byte> := [device, command, 0, 0, 0, descriptor] + fields + payload;
    var n1: byte, n2: byte := |used| % 256, |used| / 256 % 256;
    assert used[2 := n1][3 := n2][4 := 0] == clean[2 := n1][3 := n2][4 := 0];
  }

  // ---------------------------------------------------------------- the parser

  /** Little-endian value of `size` bytes, assembled byte by byte. */
  method ReadField(scratch: array<byte>, off: nat, size: nat) returns (v: nat)
    requires off + size <= scratch.Length
    ensures v == LeValue(scratch[off..off + size])
  {
    v := 0;
    var weight: nat := 1;
    for b := 0 to size
      invariant v == LeValue(scratch[off..off + b]) && weight == Pow256(b)
    {
      LeAppend(scratch[off..off + b], scratch[off + b]);
      assert scratch[off..off + b + 1] == scratch[off..off + b] + [scratch[off + b]];
      v := v + weight * scratch[off + b];
      weight := weight * 0x100;
    }
  }

  /** The chain of descriptors that starts in the header. */
  method ReadDescriptors(scratch: array<byte>, len: nat) returns (ok: bool, descriptors: seq<byte>, off: nat)
    requires HEADER <= len <= scratch.Length
    ensures ok ==> Descriptors(scratch[..len], HEADER, [scratch[5]]) == Some(Cut(descriptors, off))
    ensures !ok ==> Descriptors(scratch[..len], HEADER, [scratch[5]]) == None
    ensures ok ==> HEADER <= off <= len
  {
    ghost var bytes := scratch[..len];
    var dsc := scratch[5];
    off, descriptors := HEADER, [dsc];
    while dsc >= 0x80
      invariant 1 <= |descriptors| <= 8 && dsc == descriptors[|descriptors| - 1] && HEADER <= off <= len
      invariant Descriptors(bytes, HEADER, [scratch[5]]) == Descriptors(bytes, off, descriptors)
      decreases 8 - |descriptors|
    {
      if off >= len { return false, descriptors, off; }
      dsc := scratch[off];
      if |descriptors| == 8 { return false, descriptors, off; }
      descriptors, off := descriptors + [dsc], off + 1;
    }
    ok := true;
  }

  /** `count` fields of one size, added to the parameters so far. */
  method ReadRun(scratch: array<byte>, len: nat, start: nat, count: nat, size: nat, sofar: seq<nat>)
    returns (ok: bool, params: seq<nat>, off: nat)
    requires start <= len <= scratch.Length
    ensures ok ==> FieldRun(scratch[..len], start, count, size, sofar) == Some(Cut(params, off)) && off <= len
    ensures !ok ==> FieldRun(scratch[..len], start, count, size, sofar) == None
  {
    ghost var bytes := scratch[..len];
    off, params := start, sofar;
    for k := 0 to count
      invariant off <= len
      invariant FieldRun(bytes, start, count, size, sofar) == FieldRun(bytes, off, count - k, size, params)
    {
      if off + size > len { return false, params, off; }
      var v := ReadField(scratch, off, size);
      assert bytes[off..off + size] == scratch[off..off + size];
      params, off := params + [v], off + size;
    }
    ok := true;
  }

  method ReadFields(scratch: array<byte>, len: nat, start: nat, descriptors: seq<byte>)
    returns (ok: bool, params: seq<nat>, off: nat)
    requires start <= len <= scratch.Length
    ensures ok ==> Fields(scratch[..len], start, descriptors, []) == Some(Cut(params, off)) && off <= len
    ensures !ok ==> Fields(scratch[..len], start, descriptors, []) == None
  {
    ghost var bytes := scratch[..len];
    off, params := start, [];
    for d := 0 to |descriptors|
      invariant off <= len
      invariant Fields(bytes, start, descriptors, []) == Fields(bytes, off, descriptors[d..], params)
    {
      assert descriptors[d..][1..] == descriptors[d + 1..];
      ok, params, off := ReadRun(scratch, len, off, FieldCount(descriptors[d]), FieldSize(descriptors[d]), params);
      if !ok { return; }
    }
    ok := true;
  }

  /** Accepts exactly the wire frames that hold a good packet, and reports that packet. */
  method ParseFrame(input: array<byte>, len: nat, scratch: array<byte>, cap: nat) returns (frame: Option<Frame>)
    requires len <= input.Length && cap <= scratch.Length && input != scratch
    modifies scratch
    ensures frame == ParsedWire(input[..len], cap)
  {
    var dl := Decode(input, len, scratch, cap);
    if dl < HEADER { return None; }
    ghost var bytes := scratch[..dl];
    if scratch[2] as int + 0x100 * scratch[3] as int != dl { return None; }
    var ck := scratch[4];
    scratch[4] := 0;
    assert scratch[..dl] == bytes[4 := 0];
    var chk := Checksum(scratch, dl);
    if chk != ck { return None; }
    var ok, descriptors, off := ReadDescriptors(scratch, dl);
    if !ok { return None; }
    var params;
    ok, params, off := ReadFields(scratch, dl, off, descriptors);
    if !ok { return None; }
    frame := Some(Frame(scratch[0], scratch[1], Kept(params), scratch[off..dl]));
  }
}
