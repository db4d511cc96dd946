/**
 * SLIP framing: END brackets a frame, END and ESC inside it are escaped, and a malformed escape is dropped
 * by the decoder.  The functions say what a frame is; the methods are the buffer loops.
 */
module Slip {
  import opened Basics

  const END: byte := 0xC0
  const ESC: byte := 0xDB
  const ESC_END: byte := 0xDC
  const ESC_ESC: byte := 0xDD

  predicate Special(v: byte) {
    v == END || v == ESC
  }

  function Stuffed(v: byte): seq<byte> {
    if v == END then [ESC, ESC_END] else if v == ESC then [ESC, ESC_ESC] else [v]
  }

  function Escaped(data: seq<byte>): seq<byte> {
    if data == [] then [] else Stuffed(data[0]) + Escaped(data[1..])
  }

  function Encoded(data: seq<byte>): seq<byte> {
    [END] + Escaped(data) + [END]
  }

  /** The special bytes on the wire, as RFC 1055 has them. */
  lemma OnTheWire()
    ensures Encoded([0x01, 0xC0, 0x02, 0xDB]) == [0xC0, 0x01, 0xDB, 0xDC, 0x02, 0xDB, 0xDD, 0xC0]
  {
    var data: seq<byte> := [0x01, 0xC0, 0x02, 0xDB];
    assert data[1..] == [0xC0, 0x02, 0xDB] && data[1..][1..] == [0x02, 0xDB];
    assert data[1..][1..][1..] == [0xDB] && data[1..][1..][1..][1..] == [];
    assert Escaped([0xDB]) == [0xDB, 0xDD];
    assert Escaped([0x02, 0xDB]) == [0x02, 0xDB, 0xDD];
  }

  /** How many bytes of `data` need an escape. */
  function Specials(data: seq<byte>): nat {
    if data == [] then 0 else (if Special(data[0]) then 1 else 0) + Specials(data[1..])
  }

  /** The encoding takes two bytes for the brackets and one more for each escape. */
  lemma {:induction false} EncodedSize(data: seq<byte>)
    ensures |Encoded(data)| == |data| + Specials(data) + 2 && Specials(data) <= |data|
  {
    if data != [] {
      EncodedSize(data[1..]);
    }
  }

  lemma {:induction false} NoEndInside(data: seq<byte>)
    ensures END !in Escaped(data)
  {
    if data != [] {
      NoEndInside(data[1..]);
    }
  }

  lemma {:induction false} EscapedAppend(a: seq<byte>, b: seq<byte>)
    ensures Escaped(a + b) == Escaped(a) + Escaped(b)
  {
    if a == [] {
      assert a + b == b;
    } else {
      assert (a + b)[1..] == a[1..] + b;
      EscapedAppend(a[1..], b);
    }
  }

  /** What an escape pair stands for; nothing when it is malformed. */
  function Unescaped(v: byte): seq<byte> {
    if v == ESC_END then [END] else if v == ESC_ESC then [ESC] else []
  }

  function Prepend(first: seq<byte>, rest: Option<seq<byte>>): Option<seq<byte>> {
    match rest
    case None => None
    case Some(bytes) => Some(first + bytes)
  }

  lemma PrependTwice(a: seq<byte>, b: seq<byte>, rest: Option<seq<byte>>)
    ensures Prepend(a, Prepend(b, rest)) == Prepend(a + b, rest)
  {
    if rest.Some? {
      assert a + (b + rest.value) == a + b + rest.value;
    }
  }

  lemma PrependNothing(rest: Option<seq<byte>>)
    ensures Prepend([], rest) == rest
  {
    if rest.Some? {
      assert [] + rest.value == rest.value;
    }
  }

  /** A frame body up to its closing END, if it has one. */
  function Body(input: seq<byte>): Option<seq<byte>> {
    if input == [] then None
    else if input[0] == END then Some([])
    else if input[0] != ESC then Prepend([input[0]], Body(input[1..]))
    else if |input| == 1 then None
    else Prepend(Unescaped(input[1]), Body(input[2..]))
  }

  /** Everything before the first END is skipped. */
  function Decoded(input: seq<byte>): Option<seq<byte>> {
    if input == [] then None else if input[0] == END then Body(input[1..]) else Decoded(input[1..])
  }

  lemma BodyOfStuffed(v: byte, rest: seq<byte>)
    ensures Body(Stuffed(v) + rest) == Prepend([v], Body(rest))
  {
  }

  lemma {:induction false} BodyOfEscaped(data: seq<byte>, after: seq<byte>)
    ensures Body(Escaped(data) + after) == Prepend(data, Body(after))
  {
    if data == [] {
      assert Escaped(data) + after == after;
      PrependNothing(Body(after));
    } else {
      var rest := Escaped(data[1..]) + after;
      assert Escaped(data) + after == Stuffed(data[0]) + rest;
      BodyOfStuffed(data[0], rest);
      BodyOfEscaped(data[1..], after);
      PrependTwice([data[0]], data[1..], Body(after));
      assert [data[0]] + data[1..] == data;
    }
  }

  /** Noise without an END before a frame, and anything after it, does not keep it from being read back. */
  lemma {:induction false} DecodeEncode(noise: seq<byte>, data: seq<byte>, after: seq<byte>)
    requires END !in noise
    ensures Decoded(noise + Encoded(data) + after) == Some(data)
  {
    var input := noise + Encoded(data) + after;
    if noise == [] {
      assert input[1..] == Escaped(data) + ([END] + after);
      BodyOfEscaped(data, [END] + after);
      assert Body([END] + after) == Some([]);
      assert data + [] == data;
    } else {
      assert input[1..] == noise[1..] + Encoded(data) + after;
      assert noise[0] in noise && input[0] == noise[0];
      DecodeEncode(noise[1..], data, after);
    }
  }

  // ---------------------------------------------------------------- buffers

  /** Appends one byte, escaped if need be, unless it does not fit. */
  method PutStuffed(v: byte, output: array<byte>, o: nat, cap: nat) returns (ok: bool, o': nat)
    requires o <= cap <= output.Length
    modifies output
    ensures ok == (o + |Stuffed(v)| <= cap) && o' == if ok then o + |Stuffed(v)| else o
    ensures output[..o'] == if ok then old(output[..o]) + Stuffed(v) else old(output[..o])
  {
    if v == END || v == ESC {
      if o + 2 > cap { return false, o; }
      output[o] := ESC;
      output[o + 1] := if v == END then ESC_END else ESC_ESC;
      ok, o' := true, o + 2;
    } else {
      if o + 1 > cap { return false, o; }
      output[o] := v;
      ok, o' := true, o + 1;
    }
  }

  /** Encodes `len` bytes; 0 exactly when the encoding does not fit into `cap` bytes. */
  method Encode(input: array<byte>, len: nat, output: array<byte>, cap: nat) returns (n: nat)
    requires len <= input.Length && cap <= output.Length && input != output
    modifies output
    ensures n == if |Encoded(input[..len])| <= cap then |Encoded(input[..len])| else 0
    ensures n > 0 ==> output[..n] == Encoded(input[..len])
  {
    ghost var data := input[..len];
    if cap < 2 { return 0; }
    output[0] := END;
    var o := 1;
    for i := 0 to len
      invariant input[..len] == data && 1 <= o <= cap
      invariant output[..o] == [END] + Escaped(data[..i])
    {
      EscapedGrows(data, i);
      var ok;
      ok, o := PutStuffed(input[i], output, o, cap);
      if !ok { return 0; }
      Regroup([END], Escaped(data[..i]), Stuffed(data[i]));
    }
    assert data[..len] == data;
    if o + 1 > cap { return 0; }
    output[o] := END;
    n := o + 1;
  }

  lemma Regroup(a: seq<byte>, b: seq<byte>, c: seq<byte>)
    ensures a + b + c == a + (b + c)
  {
  }

  lemma EscapedNext(data: seq<byte>, i: nat)
    requires i < |data|
    ensures Escaped(data[..i + 1]) == Escaped(data[..i]) + Stuffed(data[i])
  {
    var one := [data[i]];
    assert data[..i + 1] == data[..i] + one && one[1..] == [];
    EscapedAppend(data[..i], one);
    assert Escaped(one) == Stuffed(data[i]) + Escaped(one[1..]);
  }

  lemma EscapedGrows(data: seq<byte>, i: nat)
    requires i < |data|
    ensures Escaped(data[..i + 1]) == Escaped(data[..i]) + Stuffed(data[i])
    ensures |Escaped(data[..i])| + |Stuffed(data[i])| <= |Escaped(data)|
  {
    var a, b := data[..i + 1], data[i + 1..];
    EscapedNext(data, i);
    EscapedAppend(a, b);
    assert a + b == data;
    assert |Escaped(a)| <= |Escaped(a + b)|;
  }

  /** What the decoder returns: the length of the frame if there is one and it fits, else 0. */
  function DecodedLength(input: seq<byte>, cap: nat): nat {
    match Decoded(input)
    case None => 0
    case Some(bytes) => if |bytes| <= cap then |bytes| else 0
  }

  method Decode(input: array<byte>, len: nat, output: array<byte>, cap: nat) returns (n: nat)
    requires len <= input.Length && cap <= output.Length && input != output
    modifies output
    ensures n == DecodedLength(input[..len], cap)
    ensures n > 0 ==> Decoded(input[..len]) == Some(output[..n])
    ensures forall k :: cap <= k < output.Length ==> output[k] == old(output[k])
  {
    ghost var data := input[..len];
    var i := 0;
    while i < len && input[i] != END
      invariant i <= len && Decoded(data[i..]) == Decoded(data)
    {
      assert data[i..][1..] == data[i + 1..];
      i := i + 1;
    }
    if i == len { return 0; }
    assert data[i..][1..] == data[i + 1..];
    n := DecodeBody(input, len, i + 1, output, cap);
  }

  /** The part of the decoder after the opening END. */
  method DecodeBody(input: array<byte>, len: nat, first: nat, output: array<byte>, cap: nat) returns (n: nat)
    requires first <= len <= input.Length && cap <= output.Length && input != output
    modifies output
    ensures var body := Body(input[..len][first..]);
            && n == (if body.Some? && |body.value| <= cap then |body.value| else 0)
            && (n > 0 ==> body == Some(output[..n]))
    ensures forall k :: cap <= k < output.Length ==> output[k] == old(output[k])
  {
    ghost var data := input[..len];
    ghost var body := Body(data[first..]);
    var o := 0;
    var i := first;
    PrependNothing(body);
    while i < len
      invariant first <= i <= len && o <= cap && input[..len] == data
      invariant body == Prepend(output[..o], Body(data[i..]))
      invariant forall k :: cap <= k < output.Length ==> output[k] == old(output[k])
      decreases len - i
    {
      var v := input[i];
      ghost var rest := data[i..];
      assert rest[1..] == data[i + 1..] && rest[0] == v;
      if v == END {
        assert output[..o] + [] == output[..o];
        return o;
      }
      ghost var sofar := output[..o];
      if v == ESC {
        i := i + 1;
        if i >= len { return 0; }
        v := input[i];
        assert rest[2..] == data[i + 1..] && rest[1] == v;
        PrependTwice(sofar, Unescaped(v), Body(data[i + 1..]));
        if v == ESC_END || v == ESC_ESC {
          if o >= cap { return 0; }
          output[o] := if v == ESC_END then END else ESC;
          o := o + 1;
        }
        assert output[..o] == sofar + Unescaped(v);
      } else {
        PrependTwice(sofar, [v], Body(data[i + 1..]));
        if o >= cap { return 0; }
        output[o] := v;
        o := o + 1;
        assert output[..o] == sofar + [v];
      }
      i := i + 1;
    }
    n := 0;
  }
}
