/**
  Base-64 armor of the save payload (section 4 of RFC 4648, with `=` padding).

  `Encode` is Python's `base64.b64encode`. `Decode` is Python's
  `base64.b64decode` with its default `validate=False`, i.e. the non-strict
  scan of CPython's `binascii.a2b_base64`: bytes outside the alphabet are
  skipped, a `=` is only counted once at least two data characters of the
  current quantum have been seen, a completed padding run ends the scan
  (whatever follows is ignored), and an unfinished quantum at the end of the
  input is an error.
 */
module Base64 {
  import opened Bytes
  import opened Results

  /** ASCII `=`. */
  const PadChar: byte := 61

  /** The two messages `binascii.Error` can carry in non-strict mode. */
  datatype ArmorError =
    | LoneTrailingChar   // "number of data characters cannot be 1 more than a multiple of 4"
    | IncorrectPadding   // "Incorrect padding"

  /** Membership in the 64-character alphabet `A-Z a-z 0-9 + /`. */
  predicate InAlphabet(c: byte) {
    (65 <= c <= 90) || (97 <= c <= 122) || (48 <= c <= 57) || c == 43 || c == 47
  }

  /** The character that encodes the 6-bit value `v`. */
  function Char(v: int): (c: byte)
    requires 0 <= v < 64
    ensures InAlphabet(c) && c != PadChar
  {
    if v < 26 then 65 + v
    else if v < 52 then 97 + (v - 26)
    else if v < 62 then 48 + (v - 52)
    else if v == 62 then 43
    else 47
  }

  /** The 6-bit value of an alphabet character; `None` for every other byte. */
  function Sextet(c: byte): (r: Option<int>)
    ensures r.Some? <==> InAlphabet(c)
    ensures r.Some? ==> 0 <= r.value < 64
  {
    if 65 <= c <= 90 then Some(c - 65)
    else if 97 <= c <= 122 then Some(c - 71)
    else if 48 <= c <= 57 then Some(c + 4)
    else if c == 43 then Some(62)
    else if c == 47 then Some(63)
    else None
  }

  /** `Sextet` and `Char` are inverse bijections between 0..63 and the alphabet. */
  lemma SextetInvertsChar(v: int, c: byte)
    requires 0 <= v < 64
    ensures Sextet(c) == Some(v) <==> Char(v) == c
  {
  }

  // ---------------------------------------------------------------- encoding

  /** Four characters for the three bytes `b0 b1 b2`. */
  function EncodeGroup(b0: byte, b1: byte, b2: byte): seq<byte> {
    [Char(b0 / 4), Char(b0 % 4 * 16 + b1 / 16), Char(b1 % 16 * 4 + b2 / 64), Char(b2 % 64)]
  }

  /** `base64.b64encode(x)`: whole groups, then a padded final group for 1 or 2 left-over bytes. */
  function Encode(x: seq<byte>): (r: seq<byte>)
    ensures |r| == 4 * ((|x| + 2) / 3)
    ensures forall i :: 0 <= i < |r| ==> InAlphabet(r[i]) || r[i] == PadChar
    decreases |x|
  {
    if |x| == 0 then []
    else if |x| == 1 then [Char(x[0] / 4), Char(x[0] % 4 * 16), PadChar, PadChar]
    else if |x| == 2 then [Char(x[0] / 4), Char(x[0] % 4 * 16 + x[1] / 16), Char(x[1] % 16 * 4), PadChar]
    else EncodeGroup(x[0], x[1], x[2]) + Encode(x[3..])
  }

  // ---------------------------------------------------------------- decoding

  /**
    The decoder's registers: position within the current 4-character quantum,
    `=` characters counted so far, the bits carried to the next output byte
    (`leftchar`) and the bytes produced.
   */
  datatype Scan = Scan(quad: int, pads: nat, left: int, out: seq<byte>)

  /** The carried bits never exceed what the quantum position leaves over. */
  predicate Fits(st: Scan) {
    && 0 <= st.quad < 4
    && 0 <= st.left
    && st.left < (if st.quad == 0 then 1 else if st.quad == 1 then 64 else if st.quad == 2 then 16 else 4)
  }

  const Start := Scan(0, 0, 0, [])

  /** Consume one data character of value `v`; every position but the first completes a byte. */
  function Feed(st: Scan, v: int): (st': Scan)
    requires Fits(st) && 0 <= v < 64
    ensures Fits(st') && st'.quad == (st.quad + 1) % 4 && st'.pads == 0
    ensures st.out <= st'.out
    ensures |st'.out| == |st.out| + (if st.quad == 0 then 0 else 1)
  {
    if st.quad == 0 then Scan(1, 0, v, st.out)
    else if st.quad == 1 then Scan(2, 0, v % 16, st.out + [st.left * 4 + v / 16])
    else if st.quad == 2 then Scan(3, 0, v % 4, st.out + [st.left * 16 + v / 4])
    else Scan(0, 0, 0, st.out + [st.left * 64 + v])
  }

  /**
    Output bytes still owed for the data characters already read in the
    current quantum, counted in quarter bytes: reading a quantum of four data
    characters yields three bytes, so every data character adds at most
    three quarters of a byte.
   */
  function Owed(quad: int): int {
    if quad == 0 then 0 else 4 - quad
  }

  /** The non-strict scan of `s` from state `st`. */
  function DecodeFrom(s: seq<byte>, st: Scan): (r: Result<seq<byte>, ArmorError>)
    requires Fits(st)
    ensures r.Success? ==> st.out <= r.value
    ensures r.Success? ==> 4 * |r.value| <= 4 * |st.out| + Owed(st.quad) + 3 * |s|
    decreases |s|
  {
    if |s| == 0 then
      if st.quad == 0 then Success(st.out)
      else if st.quad == 1 then Failure(LoneTrailingChar)
      else Failure(IncorrectPadding)
    else if s[0] == PadChar then
      if st.quad >= 2 && st.quad + st.pads + 1 >= 4 then Success(st.out)
      else if st.quad >= 2 then DecodeFrom(s[1..], st.(pads := st.pads + 1))
      else DecodeFrom(s[1..], st)
    else match Sextet(s[0])
      case None => DecodeFrom(s[1..], st)
      case Some(v) => DecodeFrom(s[1..], Feed(st, v))
  }

  /** `base64.b64decode(s)` with `validate=False`. */
  function Decode(s: seq<byte>): (r: Result<seq<byte>, ArmorError>)
    ensures r.Success? ==> 4 * |r.value| <= 3 * |s|
  {
    DecodeFrom(s, Start)
  }

  // ---------------------------------------------------------------- round trip

  lemma StepData(c: byte, rest: seq<byte>, st: Scan)
    requires Fits(st) && InAlphabet(c)
    ensures DecodeFrom([c] + rest, st) == DecodeFrom(rest, Feed(st, Sextet(c).value))
  {
    assert ([c] + rest)[0] == c;
    assert ([c] + rest)[1..] == rest;
  }

  lemma StepPad(rest: seq<byte>, st: Scan)
    requires Fits(st)
    ensures DecodeFrom([PadChar] + rest, st) ==
      if st.quad >= 2 && st.quad + st.pads + 1 >= 4 then Success(st.out)
      else if st.quad >= 2 then DecodeFrom(rest, st.(pads := st.pads + 1))
      else DecodeFrom(rest, st)
  {
    assert ([PadChar] + rest)[0] == PadChar;
    assert ([PadChar] + rest)[1..] == rest;
  }

  /** The two characters of a group carry the first byte exactly. */
  lemma FirstByte(b0: byte, b1: byte)
    ensures b0 / 4 * 4 + (b0 % 4 * 16 + b1 / 16) / 16 == b0
    ensures (b0 % 4 * 16 + b1 / 16) % 16 == b1 / 16
  {
  }

  lemma SecondByte(b1: byte, b2: byte)
    ensures b1 / 16 * 16 + (b1 % 16 * 4 + b2 / 64) / 4 == b1
    ensures (b1 % 16 * 4 + b2 / 64) % 4 == b2 / 64
  {
  }

  lemma SecondOfTwo(b1: byte)
    ensures b1 / 16 * 16 + b1 % 16 * 4 / 4 == b1
  {
  }

  lemma ThirdByte(b2: byte)
    ensures b2 / 64 * 64 + b2 % 64 == b2
  {
  }

  /** A final group holding one byte, `XY==`, emits it and ends the scan. */
  lemma OneByteTail(b0: byte, t: seq<byte>, acc: seq<byte>)
    ensures DecodeFrom(Encode([b0]) + t, Scan(0, 0, 0, acc)) == Success(acc + [b0])
  {
    var st := Scan(0, 0, 0, acc);
    var c0, c1 := Char(b0 / 4), Char(b0 % 4 * 16);
    SextetInvertsChar(b0 / 4, c0);
    SextetInvertsChar(b0 % 4 * 16, c1);
    FirstByte(b0, 0);
    assert Encode([b0]) + t == [c0] + ([c1] + ([PadChar] + ([PadChar] + t)));
    StepData(c0, [c1] + ([PadChar] + ([PadChar] + t)), st);
    var st1 := Feed(st, b0 / 4);
    StepData(c1, [PadChar] + ([PadChar] + t), st1);
    var st2 := Feed(st1, b0 % 4 * 16);
    assert st2.out == acc + [b0];
    StepPad([PadChar] + t, st2);
    StepPad(t, st2.(pads := 1));
  }

  /** A final group holding two bytes, `XYZ=`, emits them and ends the scan. */
  lemma TwoByteTail(b0: byte, b1: byte, t: seq<byte>, acc: seq<byte>)
    ensures DecodeFrom(Encode([b0, b1]) + t, Scan(0, 0, 0, acc)) == Success(acc + [b0, b1])
  {
    var st := Scan(0, 0, 0, acc);
    var v0, v1, v2 := b0 / 4, b0 % 4 * 16 + b1 / 16, b1 % 16 * 4;
    var st1 := Feed(st, v0);
    var st2 := Feed(st1, v1);
    var st3 := Feed(st2, v2);
    TwoDataSteps(b0, b1, t, acc);
    TwoBytesOut(b0, b1, acc);
    StepPad(t, st3);
  }

  /** The three data characters of `XYZ=` take the scan to its last position. */
  lemma TwoDataSteps(b0: byte, b1: byte, t: seq<byte>, acc: seq<byte>)
    ensures var v0, v1, v2 := b0 / 4, b0 % 4 * 16 + b1 / 16, b1 % 16 * 4;
            var st := Scan(0, 0, 0, acc);
            DecodeFrom(Encode([b0, b1]) + t, st) == DecodeFrom([PadChar] + t, Feed(Feed(Feed(st, v0), v1), v2))
  {
    var st := Scan(0, 0, 0, acc);
    var v0, v1, v2 := b0 / 4, b0 % 4 * 16 + b1 / 16, b1 % 16 * 4;
    var c0, c1, c2 := Char(v0), Char(v1), Char(v2);
    SextetInvertsChar(v0, c0);
    SextetInvertsChar(v1, c1);
    SextetInvertsChar(v2, c2);
    assert Encode([b0, b1]) == [c0, c1, c2, PadChar];
    assert [c0, c1, c2, PadChar] + t == [c0] + ([c1] + ([c2] + ([PadChar] + t)));
    StepData(c0, [c1] + ([c2] + ([PadChar] + t)), st);
    StepData(c1, [c2] + ([PadChar] + t), Feed(st, v0));
    StepData(c2, [PadChar] + t, Feed(Feed(st, v0), v1));
  }

  /** The registers after the three data characters of `XYZ=` hold both bytes. */
  lemma TwoBytesOut(b0: byte, b1: byte, acc: seq<byte>)
    ensures var v0, v1, v2 := b0 / 4, b0 % 4 * 16 + b1 / 16, b1 % 16 * 4;
            Feed(Feed(Feed(Scan(0, 0, 0, acc), v0), v1), v2).out == acc + [b0, b1]
  {
    var v0, v1, v2 := b0 / 4, b0 % 4 * 16 + b1 / 16, b1 % 16 * 4;
    var st2 := Feed(Feed(Scan(0, 0, 0, acc), v0), v1);
    assert st2 == Scan(2, 0, b1 / 16, acc + [b0]) by {
      FirstByte(b0, b1);
    }
    SecondOfTwo(b1);
    assert Feed(st2, v2).out == acc + [b0] + [b1];
  }

  /** A whole group emits its three bytes and returns the scan to the start of a quantum. */
  lemma WholeGroup(b0: byte, b1: byte, b2: byte, tail: seq<byte>, acc: seq<byte>)
    ensures DecodeFrom(EncodeGroup(b0, b1, b2) + tail, Scan(0, 0, 0, acc)) ==
            DecodeFrom(tail, Scan(0, 0, 0, acc + [b0, b1, b2]))
  {
    var st := Scan(0, 0, 0, acc);
    var v0, v1, v2, v3 := b0 / 4, b0 % 4 * 16 + b1 / 16, b1 % 16 * 4 + b2 / 64, b2 % 64;
    var c0, c1, c2, c3 := Char(v0), Char(v1), Char(v2), Char(v3);
    SextetInvertsChar(v0, c0);
    SextetInvertsChar(v1, c1);
    SextetInvertsChar(v2, c2);
    SextetInvertsChar(v3, c3);
    FirstByte(b0, b1);
    SecondByte(b1, b2);
    ThirdByte(b2);
    assert EncodeGroup(b0, b1, b2) + tail == [c0] + ([c1] + ([c2] + ([c3] + tail)));
    StepData(c0, [c1] + ([c2] + ([c3] + tail)), st);
    var st1 := Feed(st, v0);
    StepData(c1, [c2] + ([c3] + tail), st1);
    var st2 := Feed(st1, v1);
    StepData(c2, [c3] + tail, st2);
    var st3 := Feed(st2, v2);
    StepData(c3, tail, st3);
    assert st1.out == acc;
    assert st2.out == acc + [b0];
    assert st3.out == acc + [b0, b1];
    assert Feed(st3, v3) == Scan(0, 0, 0, acc + [b0, b1, b2]);
  }

  lemma ModThree(n: nat)
    ensures (n + 3) % 3 == n % 3
  {
  }

  /** The first whole group of an encoding emits the first three bytes of the input. */
  lemma LeadingGroup(x: seq<byte>, t: seq<byte>, acc: seq<byte>)
    requires |x| >= 3
    ensures DecodeFrom(Encode(x) + t, Scan(0, 0, 0, acc)) ==
            DecodeFrom(Encode(x[3..]) + t, Scan(0, 0, 0, acc + x[..3]))
  {
    assert Encode(x) + t == EncodeGroup(x[0], x[1], x[2]) + (Encode(x[3..]) + t) by {
      assert Encode(x) == EncodeGroup(x[0], x[1], x[2]) + Encode(x[3..]);
    }
    WholeGroup(x[0], x[1], x[2], Encode(x[3..]) + t, acc);
    assert acc + [x[0], x[1], x[2]] == acc + x[..3];
  }

  /** An input shorter than one group: nothing, or a padded final group. */
  lemma ShortTail(x: seq<byte>, t: seq<byte>, acc: seq<byte>)
    requires |x| < 3
    ensures DecodeFrom(Encode(x) + t, Scan(0, 0, 0, acc)) ==
      if |x| == 0 then DecodeFrom(t, Scan(0, 0, 0, acc + x)) else Success(acc + x)
  {
    if |x| == 0 {
      assert Encode(x) + t == t;
      assert acc + x == acc;
    } else if |x| == 1 {
      assert x == [x[0]];
      OneByteTail(x[0], t, acc);
    } else {
      assert x == [x[0], x[1]];
      TwoByteTail(x[0], x[1], t, acc);
    }
  }

  /**
    Decoding what `Encode(x)` produced, followed by anything `t`: a final
    group with padding ends the scan, so `t` is ignored; otherwise the scan
    continues on `t` with `x` already emitted.
   */
  lemma {:induction false} DecodeEncodeThen(x: seq<byte>, t: seq<byte>, acc: seq<byte>)
    ensures DecodeFrom(Encode(x) + t, Scan(0, 0, 0, acc)) ==
      if |x| % 3 == 0 then DecodeFrom(t, Scan(0, 0, 0, acc + x)) else Success(acc + x)
    decreases |x|
  {
    if |x| < 3 {
      ShortTail(x, t, acc);
    } else {
      var rest, acc' := x[3..], acc + x[..3];
      assert |rest| % 3 == |x| % 3 && acc' + rest == acc + x by {
        ModThree(|rest|);
      }
      LeadingGroup(x, t, acc);
      DecodeEncodeThen(rest, t, acc');
    }
  }

  /** `b64decode(b64encode(x)) == x`. */
  lemma DecodeEncode(x: seq<byte>)
    ensures Decode(Encode(x)) == Success(x)
  {
    DecodeEncodeThen(x, [], []);
    assert Encode(x) + [] == Encode(x);
    assert [] + x == x;
  }

  // ---------------------------------------------------------------- rejection and leniency

  /** A byte the non-strict decoder skips: neither data nor `=`. */
  predicate Junk(c: byte) {
    !InAlphabet(c) && c != PadChar
  }

  /** Inserting a non-alphabet byte anywhere never changes the outcome (`validate=False`). */
  lemma {:induction false} JunkIgnored(a: seq<byte>, c: byte, b: seq<byte>, st: Scan)
    requires Fits(st) && Junk(c)
    ensures DecodeFrom(a + [c] + b, st) == DecodeFrom(a + b, st)
    decreases |a|
  {
    if |a| == 0 {
      assert a + [c] + b == [c] + b;
      assert ([c] + b)[1..] == b;
      assert a + b == b;
    } else {
      assert (a + [c] + b)[0] == a[0];
      assert (a + b)[0] == a[0];
      assert (a + [c] + b)[1..] == a[1..] + [c] + b;
      assert (a + b)[1..] == a[1..] + b;
      if a[0] == PadChar {
        if st.quad >= 2 && st.quad + st.pads + 1 >= 4 {
        } else if st.quad >= 2 {
          JunkIgnored(a[1..], c, b, st.(pads := st.pads + 1));
        } else {
          JunkIgnored(a[1..], c, b, st);
        }
      } else {
        match Sextet(a[0])
        case None => JunkIgnored(a[1..], c, b, st);
        case Some(v) => JunkIgnored(a[1..], c, b, Feed(st, v));
      }
    }
  }

  /** Every byte of `s` is an alphabet character. */
  predicate AllData(s: seq<byte>) {
    forall i :: 0 <= i < |s| ==> InAlphabet(s[i])
  }

  /** The state reached after feeding the data characters `s`. */
  function Absorb(s: seq<byte>, st: Scan): (st': Scan)
    requires Fits(st) && AllData(s)
    ensures Fits(st') && st'.quad == (st.quad + |s|) % 4
    ensures |s| > 0 ==> st'.pads == 0
    decreases |s|
  {
    if |s| == 0 then st else Absorb(s[1..], Feed(st, Sextet(s[0]).value))
  }

  /** Data characters followed by `t` are decoded by absorbing them, then scanning `t`. */
  lemma {:induction false} DecodeAfterData(s: seq<byte>, t: seq<byte>, st: Scan)
    requires Fits(st) && AllData(s)
    ensures DecodeFrom(s + t, st) == DecodeFrom(t, Absorb(s, st))
    decreases |s|
  {
    if |s| == 0 {
      assert s + t == t;
    } else {
      assert AllData(s[1..]) by {
        forall i | 0 <= i < |s[1..]| ensures InAlphabet(s[1..][i]) {
          assert s[1..][i] == s[i + 1];
        }
      }
      assert s + t == [s[0]] + (s[1..] + t);
      StepData(s[0], s[1..] + t, st);
      DecodeAfterData(s[1..], t, Feed(st, Sextet(s[0]).value));
    }
  }

  /**
    Unpadded armor made only of alphabet characters decodes exactly when its
    length is a multiple of 4; one character over is reported as such, two or
    three over as incorrect padding.
   */
  lemma DataOnlyOutcome(s: seq<byte>)
    requires AllData(s)
    ensures Decode(s).Success? <==> |s| % 4 == 0
    ensures |s| % 4 == 1 ==> Decode(s) == Failure(LoneTrailingChar)
    ensures |s| % 4 >= 2 ==> Decode(s) == Failure(IncorrectPadding)
  {
    DecodeAfterData(s, [], Start);
    assert s + [] == s;
  }

  /**
    Too few `=` after a partial quantum is rejected: one data character over
    with one or two `=`, and two over with a single `=`.
   */
  lemma ShortPaddingRejected(s: seq<byte>)
    requires AllData(s)
    ensures |s| % 4 == 1 ==> Decode(s + [PadChar]) == Failure(LoneTrailingChar)
    ensures |s| % 4 == 1 ==> Decode(s + [PadChar, PadChar]) == Failure(LoneTrailingChar)
    ensures |s| % 4 == 2 ==> Decode(s + [PadChar]) == Failure(IncorrectPadding)
  {
    var st := Absorb(s, Start);
    DecodeAfterData(s, [PadChar], Start);
    DecodeAfterData(s, [PadChar, PadChar], Start);
    StepPad([], st);
    StepPad([PadChar], st);
    if st.quad >= 2 {
      StepPad([], st.(pads := st.pads + 1));
    } else {
      StepPad([], st);
    }
  }
}
