/** Integers on the wire (`BatteryOS-V2/util.hpp`): `serialize_int` writes the bytes of a number with the least
    significant one first, `deserialize_int` collects them again. Both are templates over the integer type;
    here the type is a width in bytes and a flag that says whether the type is signed. A right shift of a
    negative number keeps its sign, so it divides and rounds down. */
module Wire {
  type Byte = x: int | 0 <= x < 256

  function Pow2(k: nat): (r: int)
    ensures r > 0
  {
    if k == 0 then 1 else 2 * Pow2(k - 1)
  }

  /** The number of values of a type of `w` bytes. */
  function Span(w: nat): (r: int)
    ensures r > 0
  {
    Pow2(8 * w)
  }

  lemma SpanGrows(w: nat)
    ensures Span(w + 1) == 256 * Span(w)
  {
    assert Pow2(8 * w + 8) == 2 * Pow2(8 * w + 7);
    assert Pow2(8 * w + 7) == 2 * Pow2(8 * w + 6);
    assert Pow2(8 * w + 6) == 2 * Pow2(8 * w + 5);
    assert Pow2(8 * w + 5) == 2 * Pow2(8 * w + 4);
    assert Pow2(8 * w + 4) == 2 * Pow2(8 * w + 3);
    assert Pow2(8 * w + 3) == 2 * Pow2(8 * w + 2);
    assert Pow2(8 * w + 2) == 2 * Pow2(8 * w + 1);
  }

  /** The `w` low bytes of `n` in two's complement, least significant first. */
  function Bytes(n: int, w: nat): (s: seq<Byte>)
    ensures |s| == w
    decreases w
  {
    if w == 0 then [] else [n % 256] + Bytes(n / 256, w - 1)
  }

  /** The bit pattern that bytes make up, as an unsigned number. */
  function Pattern(s: seq<Byte>): (n: int)
  {
    if s == [] then 0 else s[0] + 256 * Pattern(s[1..])
  }

  /** The number of a type of `w` bytes that a bit pattern stands for. */
  function Read(signed: bool, w: nat, pattern: int): (n: int)
  {
    if signed && 2 * pattern >= Span(w) then pattern - Span(w) else pattern
  }

  /** The numbers of a type of `w` bytes. */
  predicate Fits(signed: bool, w: nat, n: int)
  {
    if signed then -Span(w) <= 2 * n < Span(w) else 0 <= n < Span(w)
  }

  /** Bitwise or. */
  function Or(a: nat, b: nat): (r: nat)
  {
    if a == 0 && b == 0 then 0
    else (if a % 2 == 1 || b % 2 == 1 then 1 else 0) + 2 * Or(a / 2, b / 2)
  }

  // ----- division -----

  lemma {:induction false} ProductSign(d: int, x: int)
    requires d > 0
    ensures x > 0 ==> d * x >= d
    ensures x < 0 ==> d * x <= -d
    decreases if x < 0 then -x else x
  {
    if x > 1 {
      ProductSign(d, x - 1);
      assert d * x == d * (x - 1) + d;
    } else if x < -1 {
      ProductSign(d, x + 1);
      assert d * x == d * (x + 1) - d;
    }
  }

  lemma DivisionIs(n: int, d: int, q: int, r: int)
    requires 0 <= r < d && n == d * q + r
    ensures n / d == q && n % d == r
  {
    var q', r' := n / d, n % d;
    assert n == d * q' + r';
    assert d * (q - q') == d * q - d * q';
    ProductSign(d, q - q');
  }

  lemma DivideAgain(n: int, d: int)
    requires d > 0
    ensures n / 256 / d == n / (256 * d)
    ensures n % (256 * d) == n % 256 + 256 * (n / 256 % d)
  {
    var q, r := n / 256 / d, n / 256 % d;
    assert n / 256 == d * q + r;
    assert n == 256 * (d * q + r) + n % 256;
    assert 256 * (d * q) == (256 * d) * q;
    DivisionIs(n, 256 * d, q, 256 * r + n % 256);
  }

  // ----- bytes and numbers -----

  /** The byte that the loop of `serialize_int` writes at position `i`: the number shifted by `8 * i` and masked. */
  function ByteOf(n: int, i: nat): (b: Byte)
  {
    n / Pow2(8 * i) % 256
  }

  /** That is byte `i` of the two's complement. */
  lemma {:induction false} BytesAt(n: int, w: nat, i: nat)
    requires i < w
    ensures Bytes(n, w)[i] == ByteOf(n, i)
    decreases w
  {
    if i > 0 {
      BytesAt(n / 256, w - 1, i - 1);
      SpanGrows(i - 1);
      DivideAgain(n, Span(i - 1));
    } else {
      assert Span(0) == 1;
    }
  }

  /** Nothing but the low bytes survives. */
  lemma {:induction false} PatternOfBytes(n: int, w: nat)
    ensures Pattern(Bytes(n, w)) == n % Span(w)
    decreases w
  {
    if w > 0 {
      PatternOfBytes(n / 256, w - 1);
      SpanGrows(w - 1);
      DivideAgain(n, Span(w - 1));
    }
  }

  lemma {:induction false} PatternRange(s: seq<Byte>)
    ensures 0 <= Pattern(s) < Span(|s|)
  {
    if s != [] {
      PatternRange(s[1..]);
      SpanGrows(|s| - 1);
    }
  }

  lemma {:induction false} BytesOfPattern(s: seq<Byte>, n: int)
    requires n % Span(|s|) == Pattern(s)
    ensures Bytes(n, |s|) == s
    decreases |s|
  {
    if s != [] {
      PatternRange(s[1..]);
      SpanGrows(|s| - 1);
      DivideAgain(n, Span(|s| - 1));
      BytesOfPattern(s[1..], n / 256);
    }
  }

  /** `deserialize_int` gives back what `serialize_int` was given exactly when that is a number of the type,
      negative ones included. */
  lemma ReadBack(signed: bool, w: nat, n: int)
    ensures Read(signed, w, Pattern(Bytes(n, w))) == n <==> Fits(signed, w, n)
  {
    PatternOfBytes(n, w);
    var p := Span(w);
    hide Span, Bytes, Pattern;
    assert 0 <= n % p < p;
    if 0 <= n < p {
      DivisionIs(n, p, 0, n);
    } else if -p <= n < 0 {
      DivisionIs(n, p, -1, n + p);
    }
  }

  /** Conversely every byte string is what `serialize_int` writes for the number it reads as, and that is a number
      of the type. */
  lemma WriteBack(signed: bool, s: seq<Byte>)
    ensures Fits(signed, |s|, Read(signed, |s|, Pattern(s)))
    ensures Bytes(Read(signed, |s|, Pattern(s)), |s|) == s
  {
    PatternRange(s);
    var p, n := Span(|s|), Read(signed, |s|, Pattern(s));
    DivisionIs(n, p, if n < 0 then -1 else 0, Pattern(s));
    BytesOfPattern(s, n);
  }

  // ----- the loops -----

  lemma {:induction false} OrZero(b: nat)
    ensures Or(0, b) == b
  {
    if b > 0 {
      OrZero(b / 2);
    }
  }

  /** Or-ing in bits above those already there adds them. */
  lemma {:induction false} OrAbove(a: nat, b: nat, k: nat)
    requires a < Pow2(k)
    ensures b * Pow2(k) >= 0 && Or(a, b * Pow2(k)) == a + b * Pow2(k)
    decreases k
  {
    if k == 0 {
      OrZero(b);
    } else {
      OrAbove(a / 2, b, k - 1);
      Doubled(b, Pow2(k - 1));
      OrStep(a, b * Pow2(k - 1));
    }
  }

  lemma Doubled(b: nat, p: nat)
    ensures b * (2 * p) == 2 * (b * p) && b * p >= 0
  {
  }

  lemma OrStep(a: nat, half: nat)
    ensures Or(a, 2 * half) == a % 2 + 2 * Or(a / 2, half)
  {
    if a == 0 && half == 0 {
      assert Or(0, 0) == 0;
    } else {
      assert 2 * half % 2 == 0 && 2 * half / 2 == half;
    }
  }

  lemma {:induction false} PatternOneMore(s: seq<Byte>, b: Byte)
    ensures Pattern(s + [b]) == Pattern(s) + b * Span(|s|)
  {
    if s != [] {
      assert (s + [b])[1..] == s[1..] + [b];
      PatternOneMore(s[1..], b);
      SpanGrows(|s| - 1);
      assert b * Span(|s|) == 256 * (b * Span(|s| - 1));
    } else {
      assert s + [b] == [b] && [b][1..] == [];
      assert Span(0) == 1;
    }
  }

  /** A buffer after `bytes` have been written at position `at`. */
  function Spliced(buffer: seq<Byte>, at: nat, bytes: seq<Byte>): (r: seq<Byte>)
    requires at + |bytes| <= |buffer|
    ensures |r| == |buffer|
  {
    buffer[..at] + bytes + buffer[at + |bytes|..]
  }

  /** Writing on where the last write ended. */
  lemma SpliceMore(buffer: seq<Byte>, at: nat, s: seq<Byte>, t: seq<Byte>)
    requires at + |s| + |t| <= |buffer|
    ensures Spliced(Spliced(buffer, at, s), at + |s|, t) == Spliced(buffer, at, s + t)
  {
    var once := Spliced(buffer, at, s);
    assert once[..at + |s|] == buffer[..at] + s;
    assert once[at + |s| + |t|..] == buffer[at + |s| + |t|..];
  }

  lemma SpliceNothing(buffer: seq<Byte>, at: nat)
    requires at <= |buffer|
    ensures Spliced(buffer, at, []) == buffer
  {
    assert buffer == buffer[..at] + buffer[at..];
  }

  /** `deserialize_int` on a buffer that holds at least the `w` bytes of the type. */
  method DeserializeInt(signed: bool, w: nat, buffer: seq<Byte>) returns (n: int)
    requires w <= |buffer|
    ensures n == Read(signed, w, Pattern(buffer[..w]))
  {
    var result: nat := 0;
    for i := 0 to w
      invariant result == Pattern(buffer[..i])
    {
      PatternRange(buffer[..i]);
      OrAbove(result, buffer[i], 8 * i);
      PatternOneMore(buffer[..i], buffer[i]);
      assert buffer[..i + 1] == buffer[..i] + [buffer[i]];
      result := Or(result, buffer[i] * Pow2(8 * i));
    }
    return Read(signed, w, result);
  }

  method Put(buffer: array<Byte>, at: nat, b: Byte)
    requires at < buffer.Length
    modifies buffer
    ensures buffer[..] == Spliced(old(buffer[..]), at, [b])
  {
    buffer[at] := b;
  }

  /** One turn of the loop below. */
  method SerializeByte(number: int, w: nat, i: nat, buffer: array<Byte>, at: nat, ghost before: seq<Byte>)
    requires i < w && at + w <= buffer.Length == |before|
    requires buffer[..] == Spliced(before, at, Bytes(number, w)[..i])
    modifies buffer
    ensures buffer[..] == Spliced(before, at, Bytes(number, w)[..i + 1])
  {
    hide Bytes, ByteOf, Spliced;
    ghost var bytes := Bytes(number, w);
    BytesAt(number, w, i);
    SpliceMore(before, at, bytes[..i], [bytes[i]]);
    assert bytes[..i] + [bytes[i]] == bytes[..i + 1];
    Put(buffer, at + i, ByteOf(number, i));
  }

  /** `serialize_int` of a number of a `w`-byte type at position `at` of a buffer. `size` is the room that the
      caller claims there is; when that is too small nothing is written. */
  method SerializeInt(number: int, w: nat, buffer: array<Byte>, at: nat, size: nat) returns (used: nat)
    requires w <= size ==> at + w <= buffer.Length
    modifies buffer
    ensures used == if size < w then 0 else w
    ensures buffer[..] == if size < w then old(buffer[..])
                          else Spliced(old(buffer[..]), at, Bytes(number, w))
  {
    if size < w {
      return 0;
    }
    hide Bytes, Spliced;
    ghost var before := buffer[..];
    SpliceNothing(before, at);
    assert Bytes(number, w)[..0] == [];
    for i := 0 to w
      invariant buffer[..] == Spliced(before, at, Bytes(number, w)[..i])
    {
      SerializeByte(number, w, i, buffer, at, before);
    }
    assert Bytes(number, w)[..w] == Bytes(number, w);
    return w;
  }

  // ----- structs made of 64-bit words -----

  /** The bytes of a struct that consists of signed 64-bit words. */
  function WordBytes(words: seq<int>): (s: seq<Byte>)
    ensures |s| == 8 * |words|
  {
    if words == [] then [] else WordBytes(words[..|words| - 1]) + Bytes(words[|words| - 1], 8)
  }

  /** The first `count` words of a buffer. */
  function WordsIn(buffer: seq<Byte>, count: nat): (words: seq<int>)
    requires 8 * count <= |buffer|
    ensures |words| == count
    ensures forall i :: 0 <= i < count ==> Fits(true, 8, words[i])
  {
    if count == 0 then []
    else
      WriteBack(true, buffer[8 * count - 8..8 * count]);
      WordsIn(buffer, count - 1) + [Read(true, 8, Pattern(buffer[8 * count - 8..8 * count]))]
  }

  lemma {:induction false} WordsOfPrefix(buffer: seq<Byte>, more: seq<Byte>, count: nat)
    requires 8 * count <= |buffer|
    ensures WordsIn(buffer + more, count) == WordsIn(buffer, count)
    decreases count
  {
    if count > 0 {
      WordsOfPrefix(buffer, more, count - 1);
      assert (buffer + more)[8 * count - 8..8 * count] == buffer[8 * count - 8..8 * count];
    }
  }

  /** Reading the words of a struct back, whatever follows them. */
  lemma {:induction false} WordsReadBack(words: seq<int>, more: seq<Byte>)
    requires forall i :: 0 <= i < |words| ==> Fits(true, 8, words[i])
    ensures WordsIn(WordBytes(words) + more, |words|) == words
  {
    hide Bytes, Pattern, Read, Fits;
    WordsOfPrefix(WordBytes(words), more, |words|);
    if words != [] {
      var n := |words| - 1;
      WordsReadBack(words[..n], Bytes(words[n], 8));
      assert WordBytes(words)[8 * n..8 * n + 8] == Bytes(words[n], 8);
      ReadBack(true, 8, words[n]);
    }
  }

  /** Writing the words that were read gives the bytes back. */
  lemma {:induction false} WordsWriteBack(buffer: seq<Byte>, count: nat)
    requires 8 * count <= |buffer|
    ensures WordBytes(WordsIn(buffer, count)) == buffer[..8 * count]
    decreases count
  {
    hide Bytes, Pattern, Read, Fits;
    if count > 0 {
      WordsWriteBack(buffer, count - 1);
      WriteBack(true, buffer[8 * count - 8..8 * count]);
      var words := WordsIn(buffer, count);
      assert words[..count - 1] == WordsIn(buffer, count - 1);
      assert buffer[..8 * count] == buffer[..8 * count - 8] + buffer[8 * count - 8..8 * count];
    }
  }

  lemma WordsSpliceMore(buffer: seq<Byte>, at: nat, words: seq<int>, i: nat)
    requires i < |words| && at + 8 * (i + 1) <= |buffer|
    ensures Spliced(Spliced(buffer, at, WordBytes(words[..i])), at + 8 * i, Bytes(words[i], 8))
         == Spliced(buffer, at, WordBytes(words[..i + 1]))
  {
    hide Spliced, Bytes;
    SpliceMore(buffer, at, WordBytes(words[..i]), Bytes(words[i], 8));
    assert words[..i + 1][..i] == words[..i];
  }

  /** One turn of the loop below: word `i` goes behind the words before it. */
  method SerializeWord(words: seq<int>, i: nat, buffer: array<Byte>, at: nat, remaining: nat, ghost before: seq<Byte>)
    returns (used: nat)
    requires i < |words| && remaining >= 8 && at + 8 * (i + 1) <= buffer.Length == |before|
    requires buffer[..] == Spliced(before, at, WordBytes(words[..i]))
    modifies buffer
    ensures used == 8 && buffer[..] == Spliced(before, at, WordBytes(words[..i + 1]))
  {
    hide Spliced, Bytes, WordBytes;
    WordsSpliceMore(before, at, words, i);
    used := SerializeInt(words[i], 8, buffer, at + 8 * i, remaining);
  }

  /** `serialize_struct_as_int`. */
  method SerializeWords(words: seq<int>, buffer: array<Byte>, at: nat, size: nat) returns (used: nat)
    requires 8 * |words| <= size ==> at + 8 * |words| <= buffer.Length
    modifies buffer
    ensures used == if size < 8 * |words| then 0 else 8 * |words|
    ensures buffer[..] == if size < 8 * |words| then old(buffer[..])
                          else Spliced(old(buffer[..]), at, WordBytes(words))
  {
    if size < 8 * |words| {
      return 0;
    }
    hide Spliced, WordBytes;
    ghost var before := buffer[..];
    assert WordBytes(words[..0]) == [];
    SpliceNothing(before, at);
    var remaining := size;
    for i := 0 to |words|
      invariant remaining == size - 8 * i
      invariant buffer[..] == Spliced(before, at, WordBytes(words[..i]))
    {
      var step := SerializeWord(words, i, buffer, at, remaining, before);
      remaining := remaining - step;
    }
    assert words[..|words|] == words;
    return size - remaining;
  }

  /** `deserialize_struct_as_int` for a struct of `count` words; nothing is read when the buffer is too short. */
  method DeserializeWords(buffer: seq<Byte>, count: nat) returns (words: seq<int>, used: nat)
    ensures used == if |buffer| < 8 * count then 0 else 8 * count
    ensures words == if |buffer| < 8 * count then [] else WordsIn(buffer, count)
  {
    words := [];
    if |buffer| < 8 * count {
      return words, 0;
    }
    for i := 0 to count
      invariant words == WordsIn(buffer, i)
    {
      var word := DeserializeInt(true, 8, buffer[8 * i..]);
      assert buffer[8 * i..][..8] == buffer[8 * i..8 * i + 8];
      words := words + [word];
    }
    return words, 8 * count;
  }
}
