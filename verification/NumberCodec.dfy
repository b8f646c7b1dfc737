/** The variable-length number code of the index file.

A number is stored as its big-endian base-256 digits, preceded by one byte 0xFF
for every digit after the first; a leading digit 0xFF is followed by a flag
byte 0. A byte of the file is a `char` whose code is below 256. */
module NumberCodec {

  const MAGICNUMCHAR := 0xFF

  /** What a decoder says at a file position: either failure, or a value and the
      position after it. */
  datatype Decoded<+T> = Fail | Got(value: T, next: nat) {
    predicate IsFailure() { Fail? }

    function PropagateFailure<U>(): Decoded<U>
      requires Fail?
    {
      Fail
    }

    function Extract(): (T, nat)
      requires Got?
    {
      (value, next)
    }
  }

  function ByteAt(file: string, pos: nat): (b: nat)
    requires pos < |file|
    ensures b < 256
  {
    file[pos] as int % 256
  }

  function Byte(b: nat): (c: char)
    requires b < 256
    ensures c as int == b
  {
    b as char
  }

  /** `t >> (8*k)` */
  function ShiftBytes(t: nat, k: nat): nat
  {
    if k == 0 then t else ShiftBytes(t / 256, k - 1)
  }

  /** `k+1` one-bytes, the mask the writer widens until it covers the number. */
  function OnesMask(k: nat): nat
  {
    if k == 0 then 255 else OnesMask(k - 1) * 256 + 255
  }

  /** Number of base-256 digits after the first one. */
  function ExtraDigits(t: nat): nat
  {
    if t < 256 then 0 else 1 + ExtraDigits(t / 256)
  }

  /** The `k` lowest base-256 digits of `t`, most significant first. */
  function LowDigits(t: nat, k: nat): (s: string)
    ensures |s| == k
  {
    if k == 0 then [] else LowDigits(t / 256, k - 1) + [Byte(t % 256)]
  }

  function Magics(k: nat): (s: string)
    ensures |s| == k
    ensures forall i :: 0 <= i < k ==> s[i] as int == MAGICNUMCHAR
  {
    seq(k, i => Byte(MAGICNUMCHAR))
  }

  /** The leading digit, with its flag byte when it could be mistaken for a count byte. */
  function Lead(d: nat): string
    requires d < 256
  {
    if d == MAGICNUMCHAR then [Byte(d), Byte(0)] else [Byte(d)]
  }

  function EncNum(t: nat): (s: string)
    ensures |s| == NumLength(t)
  {
    var k := ExtraDigits(t);
    Magics(k) + Lead(ShiftBytes(t, k) % 256) + LowDigits(t, k)
  }

  // ---- Decoding ----

  function DecRest(file: string, pos: nat, toget: nat, acc: nat): Decoded<nat>
    decreases toget
  {
    if toget == 0 then Got(acc, pos)
    else if pos >= |file| then Fail
    else DecRest(file, pos + 1, toget - 1, acc * 256 + ByteAt(file, pos))
  }

  function DecLong(file: string, pos: nat, toget: nat): Decoded<nat>
    requires toget >= 1
    decreases if pos < |file| then |file| - pos else 0
  {
    if pos >= |file| then Fail
    else
      var c := ByteAt(file, pos);
      if c == MAGICNUMCHAR then DecLong(file, pos + 1, toget + 1)
      else if c != 0 then DecRest(file, pos + 1, toget, c)
      else DecRest(file, pos + 1, toget - 1, MAGICNUMCHAR)
  }

  function DecNum(file: string, pos: nat): Decoded<nat>
  {
    if pos >= |file| then Fail
    else if ByteAt(file, pos) != MAGICNUMCHAR then Got(ByteAt(file, pos), pos + 1)
    else DecLong(file, pos + 1, 1)
  }

  // ---- Text at a position of the file ----

  ghost predicate At(file: string, pos: nat, s: string)
  {
    pos + |s| <= |file| && file[pos..pos + |s|] == s
  }

  lemma AtSplit(file: string, pos: nat, a: string, b: string)
    ensures At(file, pos, a + b) <==> At(file, pos, a) && At(file, pos + |a|, b)
  {
    if pos + |a| + |b| <= |file| {
      var w := file[pos..pos + |a| + |b|];
      assert w == file[pos..pos + |a|] + file[pos + |a|..pos + |a| + |b|];
      assert (a + b)[..|a|] == a && (a + b)[|a|..] == b;
      assert w[..|a|] == file[pos..pos + |a|] && w[|a|..] == file[pos + |a|..pos + |a| + |b|];
    }
  }

  /** The first part of a text, and where the rest stands. */
  lemma AtPiece(file: string, pos: nat, a: string, b: string)
    requires At(file, pos, a + b)
    ensures pos + |a| + |b| <= |file| && file[pos..pos + |a|] == a && At(file, pos, a) && At(file, pos + |a|, b)
  {
    AtSplit(file, pos, a, b);
  }

  lemma AtBound(file: string, pos: nat, s: string)
    requires At(file, pos, s)
    ensures pos + |s| <= |file|
  {
  }

  lemma AtIndex(file: string, pos: nat, s: string, i: nat)
    requires At(file, pos, s) && i < |s|
    ensures file[pos + i] == s[i]
  {
    assert file[pos..pos + |s|][i] == file[pos + i];
  }

  // ---- The decoder undoes the encoder ----

  /** The mask loop of the writer stops exactly at the number of extra digits. */
  lemma {:induction false} MaskCovers(t: nat, k: nat)
    ensures t <= OnesMask(k) <==> ExtraDigits(t) <= k
  {
    if k > 0 && t >= 256 {
      MaskCovers(t / 256, k - 1);
    }
  }

  lemma {:induction false} LeadDigit(t: nat, k: nat)
    requires k == ExtraDigits(t)
    ensures ShiftBytes(t, k) < 256 && (k > 0 ==> ShiftBytes(t, k) > 0)
  {
    if k > 0 { LeadDigit(t / 256, k - 1); }
  }

  lemma {:induction false} RestAppend(file: string, pos: nat, k: nat, acc: nat)
    requires k > 0
    ensures DecRest(file, pos, k, acc)
         == match DecRest(file, pos, k - 1, acc)
            case Fail => Fail
            case Got(v, q) => if q >= |file| then Fail else Got(v * 256 + ByteAt(file, q), q + 1)
    decreases k
  {
    if k > 1 && pos < |file| {
      RestAppend(file, pos + 1, k - 1, acc * 256 + ByteAt(file, pos));
    }
  }

  lemma {:induction false} RestOfDigits(file: string, pos: nat, t: nat, k: nat)
    requires At(file, pos, LowDigits(t, k))
    ensures DecRest(file, pos, k, ShiftBytes(t, k)) == Got(t, pos + k)
  {
    if k > 0 {
      AtSplit(file, pos, LowDigits(t / 256, k - 1), [Byte(t % 256)]);
      AtIndex(file, pos + k - 1, [Byte(t % 256)], 0);
      RestOfDigits(file, pos, t / 256, k - 1);
      RestAppend(file, pos, k, ShiftBytes(t, k));
    }
  }

  lemma MagicsStep(file: string, pos: nat, k: nat)
    requires k > 0 && At(file, pos, Magics(k))
    ensures pos < |file| && ByteAt(file, pos) == MAGICNUMCHAR && At(file, pos + 1, Magics(k - 1))
  {
    AtIndex(file, pos, Magics(k), 0);
    assert Magics(k) == Magics(1) + Magics(k - 1);
    AtSplit(file, pos, Magics(1), Magics(k - 1));
  }

  lemma {:induction false} LongAfterMagics(file: string, pos: nat, toget: nat, k: nat)
    requires toget >= 1 && At(file, pos, Magics(k))
    ensures DecLong(file, pos, toget) == DecLong(file, pos + k, toget + k)
    decreases k
  {
    hide At, Magics;
    if k > 0 {
      MagicsStep(file, pos, k);
      LongAfterMagics(file, pos + 1, toget + 1, k - 1);
    }
  }

  /** After the count bytes the reader finds the leading digit and then the others. */
  lemma LongAtLead(file: string, pos: nat, t: nat, k: nat)
    requires k == ExtraDigits(t) && k > 0
    requires At(file, pos, Lead(ShiftBytes(t, k) % 256) + LowDigits(t, k))
    ensures DecLong(file, pos, k) == Got(t, pos + |Lead(ShiftBytes(t, k) % 256)| + k)
  {
    var d := ShiftBytes(t, k);
    LeadDigit(t, k);
    AtSplit(file, pos, Lead(d), LowDigits(t, k));
    RestOfDigits(file, pos + |Lead(d)|, t, k);
    AtIndex(file, pos, Lead(d), 0);
    if d == MAGICNUMCHAR {
      AtIndex(file, pos, Lead(d), 1);
      assert DecLong(file, pos, k) == DecLong(file, pos + 1, k + 1);
    }
  }

  lemma ShortRoundTrip(file: string, pos: nat, t: nat)
    requires t < 256 && At(file, pos, Lead(t))
    ensures DecNum(file, pos) == Got(t, pos + |Lead(t)|)
  {
    AtIndex(file, pos, Lead(t), 0);
    if t == MAGICNUMCHAR {
      AtIndex(file, pos, Lead(t), 1);
      assert DecRest(file, pos + 2, 0, MAGICNUMCHAR) == Got(t, pos + 2);
    }
  }

  lemma LongRoundTrip(file: string, pos: nat, t: nat, k: nat)
    requires k == ExtraDigits(t) && k > 0
    requires At(file, pos, Magics(k)) && At(file, pos + k, Lead(ShiftBytes(t, k) % 256) + LowDigits(t, k))
    ensures DecNum(file, pos) == Got(t, pos + NumLength(t))
  {
    hide At, Magics, ShiftBytes, LowDigits, DecLong;
    MagicsStep(file, pos, k);
    LongAfterMagics(file, pos + 1, 1, k - 1);
    LongAtLead(file, pos + k, t, k);
  }

  /** Reading back a written number gives the number, whatever follows it. */
  lemma NumRoundTrip(file: string, pos: nat, t: nat)
    requires At(file, pos, EncNum(t))
    ensures DecNum(file, pos) == Got(t, pos + |EncNum(t)|)
  {
    var k := ExtraDigits(t);
    var tail := Lead(ShiftBytes(t, k) % 256) + LowDigits(t, k);
    assert EncNum(t) == Magics(k) + tail;
    AtSplit(file, pos, Magics(k), tail);
    if k == 0 {
      assert tail == Lead(t);
      ShortRoundTrip(file, pos, t);
    } else {
      LongRoundTrip(file, pos, t, k);
    }
  }

  /** The number code is prefix-free: two numbers readable at one position are equal. */
  lemma NumUnambiguous(file: string, pos: nat, t: nat, u: nat)
    requires At(file, pos, EncNum(t)) && At(file, pos, EncNum(u))
    ensures t == u
  {
    NumRoundTrip(file, pos, t);
    NumRoundTrip(file, pos, u);
  }

  // ---- Length of the code ----

  /** What the counting pass adds for one number. */
  function NumLength(t: nat): nat
  {
    var k := ExtraDigits(t);
    2 * k + (if ShiftBytes(t, k) % 256 == MAGICNUMCHAR then 2 else 1)
  }

  lemma {:induction false} ExtraMonotone(t: nat, u: nat)
    requires t <= u
    ensures ExtraDigits(t) <= ExtraDigits(u)
    ensures ExtraDigits(t) == ExtraDigits(u) ==> ShiftBytes(t, ExtraDigits(t)) <= ShiftBytes(u, ExtraDigits(u))
  {
    if t >= 256 { ExtraMonotone(t / 256, u / 256); }
  }

  /** A larger number never has a shorter code. */
  lemma NumLengthMonotone(t: nat, u: nat)
    requires t <= u
    ensures |EncNum(t)| <= |EncNum(u)|
  {
    ExtraMonotone(t, u);
    LeadDigit(t, ExtraDigits(t));
    LeadDigit(u, ExtraDigits(u));
  }
}
