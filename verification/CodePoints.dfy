/** Code points of strings in core-js: `String.fromCodePoint` (webpack module `r8F+`), reading a
    code point or a character (module `G7bs`) and the string iterator (module `tkWj`). A string is
    a sequence of 16-bit units; sections 2.1 and 2.2 of RFC 2781 fix the surrogate pairs. */
module CodePoints {
  import opened Common

  type Unit = u: int | 0 <= u < 0x10000

  predicate IsCodePoint(c: int) { 0 <= c <= 0x10FFFF }
  predicate IsHigh(c: int) { 0xD800 <= c <= 0xDBFF }
  predicate IsLow(c: int) { 0xDC00 <= c <= 0xDFFF }
  predicate IsScalar(c: int) { IsCodePoint(c) && !IsHigh(c) && !IsLow(c) }

  ghost predicate AllCodePoints(cs: seq<int>) {
    forall i :: 0 <= i < |cs| ==> IsCodePoint(cs[i])
  }

  /** A high surrogate immediately followed by a low one, as two separate code points. */
  ghost predicate HasSplitPair(cs: seq<int>) {
    exists i :: 0 <= i < |cs| - 1 && IsHigh(cs[i]) && IsLow(cs[i + 1])
  }

  // ---------------------------------------------------------------- encoding

  /** An argument converted to a number; every number that is not an integer is `Fraction`. */
  datatype Number = Integer(value: int) | Fraction

  datatype Text = Text(units: seq<Unit>) | RangeError(culprit: Number)

  function EncodeOne(c: int): (units: seq<Unit>)
    requires IsCodePoint(c)
    ensures |units| == if c < 0x10000 then 1 else 2
  {
    if c < 65536 then [c] else [55296 + (c - 65536) / 1024, (c - 65536) % 1024 + 56320]
  }

  function Encode(cs: seq<int>): seq<Unit>
    requires AllCodePoints(cs)
  {
    if cs == [] then [] else EncodeOne(cs[0]) + Encode(cs[1..])
  }

  /** Section 2.1 of RFC 2781: above U+FFFF the two units hold the upper and the lower ten bits of what
      exceeds 0x10000; any other code point is its own unit. */
  lemma EncodeOneIsUtf16(c: int)
    requires IsCodePoint(c)
    ensures c < 0x10000 ==> EncodeOne(c) == [c]
    ensures c >= 0x10000 ==>
              var units := EncodeOne(c);
              && IsHigh(units[0]) && IsLow(units[1])
              && var upper: int, lower: int := units[0] - 0xD800, units[1] - 0xDC00;
                 c - 0x10000 == upper * 0x400 + lower
  {
  }

  lemma {:induction false} EncodeAppend(cs: seq<int>, c: int)
    requires AllCodePoints(cs) && IsCodePoint(c)
    ensures Encode(cs + [c]) == Encode(cs) + EncodeOne(c)
  {
    if cs == [] {
      assert Encode([]) == [];
    } else {
      EncodeAppend(cs[1..], c);
      assert (cs + [c])[1..] == cs[1..] + [c];
    }
  }

  predicate Acceptable(n: Number) {
    n.Integer? && IsCodePoint(n.value)
  }

  ghost predicate AllAcceptable(args: seq<Number>) {
    forall i :: 0 <= i < |args| ==> Acceptable(args[i])
  }

  ghost function Values(args: seq<Number>): (cs: seq<int>)
    requires AllAcceptable(args)
    ensures |cs| == |args| && AllCodePoints(cs)
    ensures forall i :: 0 <= i < |args| ==> args[i] == Integer(cs[i])
  {
    if args == [] then []
    else
      assert Acceptable(args[0]);
      [args[0].value] + Values(args[1..])
  }

  lemma EncodeNext(args: seq<Number>, a: nat)
    requires a < |args| && AllAcceptable(args[..a]) && Acceptable(args[a])
    ensures AllAcceptable(args[..a + 1])
    ensures Encode(Values(args[..a + 1])) == Encode(Values(args[..a])) + EncodeOne(args[a].value)
  {
    assert args[..a + 1] == args[..a] + [args[a]];
    assert Values(args[..a + 1]) == Values(args[..a]) + [args[a].value] by {
      forall i | 0 <= i <= a ensures Values(args[..a + 1])[i] == (Values(args[..a]) + [args[a].value])[i] {
        assert i < a ==> args[..a][i] == args[..a + 1][i];
      }
    }
    EncodeAppend(Values(args[..a]), args[a].value);
  }

  /** Two candidates for the first unacceptable argument are the same one. */
  lemma FirstCulprit(args: seq<Number>, a: nat, i: nat)
    requires a < |args| && i < |args| && AllAcceptable(args[..a]) && AllAcceptable(args[..i])
    requires !Acceptable(args[a]) && !Acceptable(args[i])
    ensures a == i
  {
  }

  /** The clamp of `7Oj1` that the code compares each argument with. */
  function Clamp(i: int, length: nat): int {
    if i < 0 then if i + length > 0 then i + length else 0
    else if i < length then i else length
  }

  method FromCodePoint(args: seq<Number>) returns (text: Text)
    ensures AllAcceptable(args) ==> text == Text(Encode(Values(args)))
    ensures forall i :: 0 <= i < |args| && !Acceptable(args[i]) && AllAcceptable(args[..i]) ==>
              text == RangeError(args[i])
  {
    hide AllAcceptable, Values, Encode;
    NoArguments();
    var n: seq<Unit> := [];
    var a := 0;
    while a < |args|
      invariant 0 <= a <= |args|
      invariant AllAcceptable(args[..a]) && n == Encode(Values(args[..a]))
    {
      if args[a].Fraction? || Clamp(args[a].value, 1114111) != args[a].value {
        forall i | 0 <= i < |args| && !Acceptable(args[i]) && AllAcceptable(args[..i]) ensures i == a {
          FirstCulprit(args, a, i);
        }
        NotAll(args, a);
        return RangeError(args[a]);
      }
      EncodeNext(args, a);
      var e := args[a].value;
      a := a + 1;
      if e < 65536 {
        n := n + [e];
      } else {
        e := e - 65536;
        n := n + [55296 + e / 1024, e % 1024 + 56320];
      }
    }
    assert args[..a] == args;
    text := Text(n);
  }

  lemma NoArguments()
    ensures AllAcceptable([]) && Encode(Values([])) == []
  {
  }

  lemma NotAll(args: seq<Number>, a: nat)
    requires a < |args| && !Acceptable(args[a])
    ensures !AllAcceptable(args)
  {
  }

  // ---------------------------------------------------------------- reading

  /** Whether a surrogate pair starts at position u. */
  predicate PairAt(s: seq<Unit>, u: int)
    requires 0 <= u < |s|
  {
    !(s[u] < 55296 || s[u] > 56319 || u + 1 == |s| || s[u + 1] < 56320 || s[u + 1] > 57343)
  }

  function CodeAt(s: seq<Unit>, u: int): (c: Option<int>)
    ensures c.None? <==> u < 0 || u >= |s|
  {
    if u < 0 || u >= |s| then None
    else if !PairAt(s, u) then Some(s[u])
    else
      var i: int, a: int := s[u], s[u + 1];
      Some(a - 56320 + (i - 55296) * 1024 + 65536)
  }

  function CharAt(s: seq<Unit>, u: int): (c: seq<Unit>)
    ensures if 0 <= u < |s| then 1 <= |c| <= 2 && u + |c| <= |s| && c == s[u..u + |c|] else c == []
  {
    if u < 0 || u >= |s| then []
    else if !PairAt(s, u) then [s[u]]
    else s[u..u + 2]
  }

  /** The characters an iterator yields. */
  function Pieces(s: seq<Unit>): seq<seq<Unit>> {
    if s == [] then [] else [CharAt(s, 0)] + Pieces(s[|CharAt(s, 0)|..])
  }

  lemma CharAtSlice(s: seq<Unit>, u: nat)
    requires u <= |s|
    ensures CharAt(s[u..], 0) == CharAt(s, u) && CodeAt(s[u..], 0) == CodeAt(s, u)
  {
  }

  class StringIterator {
    const units: seq<Unit>
    var index: nat

    ghost predicate Valid()
      reads this
    {
      index <= |units|
    }

    constructor (units: seq<Unit>)
      ensures Valid() && this.units == units && index == 0
    {
      this.units, index := units, 0;
    }

    method Next() returns (r: Option<seq<Unit>>)
      requires Valid()
      modifies this
      ensures Valid()
      ensures r.None? ==> Pieces(old(units[index..])) == [] && index == old(index)
      ensures r.Some? ==> Pieces(old(units[index..])) == [r.value] + Pieces(units[index..]) && old(index) < index
    {
      if index >= |units| {
        return None;
      }
      var t := CharAt(units, index);
      CharAtSlice(units, index);
      assert units[index..][|t|..] == units[index + |t|..];
      index := index + |t|;
      r := Some(t);
    }
  }

  /** Spread a string: call the iterator until it is done. */
  method Spread(s: seq<Unit>) returns (pieces: seq<seq<Unit>>)
    ensures pieces == Pieces(s)
  {
    var it := new StringIterator(s);
    pieces := [];
    var r := it.Next();
    while r.Some?
      invariant fresh(it) && it.Valid() && it.units == s
      invariant Pieces(s) == pieces + if r.None? then [] else [r.value] + Pieces(s[it.index..])
      decreases r.Some?, |s| - it.index
    {
      pieces := pieces + [r.value];
      r := it.Next();
    }
  }

  /** Read each character an iterator yields as a code point. */
  function Decode(s: seq<Unit>): seq<int> {
    if s == [] then [] else [CodeAt(CharAt(s, 0), 0).value] + Decode(s[|CharAt(s, 0)|..])
  }

  lemma {:induction false} DecodeIsCodesOfPieces(s: seq<Unit>)
    ensures |Decode(s)| == |Pieces(s)|
    ensures forall i :: 0 <= i < |Pieces(s)| ==> Some(Decode(s)[i]) == CodeAt(Pieces(s)[i], 0)
  {
    if s != [] { DecodeIsCodesOfPieces(s[|CharAt(s, 0)|..]); }
  }

  function Flatten(pieces: seq<seq<Unit>>): seq<Unit> {
    if pieces == [] then [] else pieces[0] + Flatten(pieces[1..])
  }

  lemma FlattenCons(piece: seq<Unit>, pieces: seq<seq<Unit>>)
    ensures Flatten([piece] + pieces) == piece + Flatten(pieces)
  {
  }

  /** Iteration cuts a string up without loss, well formed or not. */
  lemma {:induction false} PiecesAreTheString(s: seq<Unit>)
    ensures Flatten(Pieces(s)) == s
  {
    if s != [] {
      var n := |CharAt(s, 0)|;
      PiecesAreTheString(s[n..]);
      FlattenCons(CharAt(s, 0), Pieces(s[n..]));
    }
  }

  // ---------------------------------------------------------------- round trips

  /** A code point encodes to the one character that reads back as it, unless it is a high
      surrogate and a low one follows. */
  lemma ReadsBack(c: int, rest: seq<Unit>)
    requires IsCodePoint(c) && !(IsHigh(c) && rest != [] && IsLow(rest[0]))
    ensures var s := EncodeOne(c) + rest;
            CharAt(s, 0) == EncodeOne(c) && CodeAt(EncodeOne(c), 0) == Some(c)
  {
  }

  lemma EncodeOneReads(s: seq<Unit>)
    requires s != []
    ensures var c := CodeAt(CharAt(s, 0), 0);
            c.Some? && IsCodePoint(c.value) && EncodeOne(c.value) == CharAt(s, 0)
  {
    if PairAt(s, 0) {
      var a: int, b: int := s[0] - 55296, s[1] - 56320;
      assert (b + a * 1024) / 1024 == a && (b + a * 1024) % 1024 == b;
    }
  }

  /** Every string is recovered from its code points. */
  lemma {:induction false} DecodeEncode(s: seq<Unit>)
    ensures AllCodePoints(Decode(s)) && Encode(Decode(s)) == s
  {
    if s != [] {
      var n := |CharAt(s, 0)|;
      EncodeOneReads(s);
      DecodeEncode(s[n..]);
      assert Decode(s)[1..] == Decode(s[n..]);
      assert s == s[..n] + s[n..];
    }
  }

  lemma FirstLow(s: seq<Unit>)
    requires s != []
    ensures Decode(s) != [] && (IsLow(Decode(s)[0]) <==> IsLow(s[0]))
  {
  }

  /** Decoding never leaves the two halves of a pair apart. */
  lemma {:induction false} DecodeJoinsPairs(s: seq<Unit>)
    ensures !HasSplitPair(Decode(s))
  {
    if s != [] {
      var n := |CharAt(s, 0)|;
      DecodeJoinsPairs(s[n..]);
      if n < |s| { FirstLow(s[n..]); }
      var cs, rest := Decode(s), Decode(s[n..]);
      assert cs == [cs[0]] + rest;
      forall i | 0 <= i < |cs| - 1 ensures !(IsHigh(cs[i]) && IsLow(cs[i + 1])) {
        assert i > 0 ==> cs[i] == rest[i - 1] && cs[i + 1] == rest[i];
      }
    }
  }

  lemma FirstUnit(cs: seq<int>)
    requires AllCodePoints(cs) && cs != []
    ensures Encode(cs) != [] && (IsLow(Encode(cs)[0]) <==> IsLow(cs[0]))
  {
  }

  lemma {:induction false} EncodeDecode(cs: seq<int>)
    requires AllCodePoints(cs) && !HasSplitPair(cs)
    ensures Decode(Encode(cs)) == cs
  {
    if cs != [] {
      var rest := cs[1..];
      assert !HasSplitPair(rest) by {
        forall i | 0 <= i < |rest| - 1 ensures !(IsHigh(rest[i]) && IsLow(rest[i + 1])) {
          assert rest[i] == cs[i + 1] && rest[i + 1] == cs[i + 1 + 1];
        }
      }
      EncodeDecode(rest);
      if rest != [] { FirstUnit(rest); assert !(IsHigh(cs[0]) && IsLow(cs[0 + 1])); }
      ReadsBack(cs[0], Encode(rest));
      var s := EncodeOne(cs[0]) + Encode(rest);
      assert s[|EncodeOne(cs[0])|..] == Encode(rest);
    }
  }

  /** Code points survive a round trip exactly when no high surrogate is followed by a low one. */
  lemma {:induction false} RoundTrip(cs: seq<int>)
    requires AllCodePoints(cs)
    ensures Decode(Encode(cs)) == cs <==> !HasSplitPair(cs)
  {
    DecodeJoinsPairs(Encode(cs));
    if !HasSplitPair(cs) { EncodeDecode(cs); }
  }

  /** Every sequence of Unicode scalar values survives. */
  lemma {:induction false} ScalarRoundTrip(cs: seq<int>)
    requires forall i :: 0 <= i < |cs| ==> IsScalar(cs[i])
    ensures AllCodePoints(cs) && Decode(Encode(cs)) == cs
  {
    RoundTrip(cs);
  }

  /** The pair that does not survive: U+D83D U+DE00 comes back as the one code point U+1F600. */
  lemma SplitPairIsJoined()
    ensures var cs := [0xD83D, 0xDE00];
            AllCodePoints(cs) && Decode(Encode(cs)) == [0x1F600]
  {
    var cs := [0xD83D, 0xDE00];
    assert Encode(cs[1..]) == [0xDE00];
    assert Encode(cs) == [0xD83D, 0xDE00];
    assert Decode(Encode(cs)[2..]) == [];
  }
}
