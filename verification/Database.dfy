/** The file object that writes and reads the index. */
module IndexDatabase {
  import opened NumberCodec
  import opened Strings
  import opened StringTable
  import opened Packages
  import opened IndexFormat
  import opened Wrappers

  /** What a write depends on and changes: the text so far, the byte counter, whether
      bytes are only counted, and how many more bytes the device takes. */
  datatype Sink = Sink(data: string, counter: nat, counting: bool, room: nat)

  /** The effect of writing `s`: it succeeds exactly if it is possible at all and, unless
      bytes are only counted, there is room for it. Counting leaves the file alone. */
  ghost predicate Written(a: Sink, s: string, b: Sink, ok: bool, possible: bool)
  {
    if ok then possible && Takes(a, s) && b == Put(a, s)
    else !(possible && Takes(a, s)) && b.counting == a.counting && (a.counting ==> b == a.(counter := b.counter))
  }

  ghost predicate Takes(a: Sink, s: string) { a.counting || |s| <= a.room }

  ghost function Put(a: Sink, s: string): Sink
    requires Takes(a, s)
  {
    if a.counting then a.(counter := a.counter + |s|)
    else a.(data := a.data + s, room := a.room - |s|)
  }

  /** One piece after what was already written; after a failure nothing more is written. */
  lemma WrittenNext(a: Sink, s: string, b: Sink, okB: bool, p: bool, t: string, c: Sink, okC: bool, q: bool)
    requires Written(a, s, b, okB, p)
    requires if okB then Written(b, t, c, okC, q) else c == b && !okC
    ensures Written(a, s + t, c, okC, p && q)
  {
    if okC && !a.counting { assert (a.data + s) + t == a.data + (s + t); }
  }

  lemma WrittenSame(a: Sink, s: string, t: string, b: Sink, ok: bool, p: bool, q: bool)
    requires Written(a, s, b, ok, p) && s == t && p == q
    ensures Written(a, t, b, ok, q)
  {
  }

  /** A length found by a counting run, and then the text itself. The outcome of the
      counting run is not looked at: what makes it fail makes the writing run fail. */
  lemma WrittenCounted(a: Sink, n: nat, s: string, b: Sink, okB: bool, c: Sink, okC: bool, p: bool)
    requires p ==> n == |s|
    requires Written(a, EncNum(n), b, okB, true)
    requires if okB then Written(b, s, c, okC, p) else c == b && !okC
    ensures Written(a, EncNum(|s|) + s, c, okC, p)
  {
    if p {
      WrittenNext(a, EncNum(n), b, okB, true, s, c, okC, p);
    }
  }

  // ---- Lists, element by element ----

  lemma EncListNext<T>(enc: T -> string, xs: seq<T>, i: nat)
    requires i < |xs|
    ensures EncList(enc, xs[..i + 1]) == EncList(enc, xs[..i]) + enc(xs[i])
  {
    assert xs[..i + 1][..i] == xs[..i];
  }

  lemma {:induction false} EncListGrows<T>(enc: T -> string, xs: seq<T>, i: nat)
    requires i <= |xs|
    ensures |EncList(enc, xs[..i])| <= |EncList(enc, xs)|
    decreases |xs| - i
  {
    if i < |xs| {
      EncListNext(enc, xs, i);
      EncListGrows(enc, xs, i + 1);
    } else {
      assert xs[..i] == xs;
    }
  }

  /** One more element of a list whose elements up to `i` are written. */
  lemma ListStep<T>(a: Sink, enc: T -> string, xs: seq<T>, i: nat, b: Sink, c: Sink, ok: bool, p: bool, all: bool)
    requires i < |xs| && Written(a, EncList(enc, xs[..i]), b, true, true) && Written(b, enc(xs[i]), c, ok, p)
    requires all ==> p
    ensures ok ==> p && Written(a, EncList(enc, xs[..i + 1]), c, true, true)
    ensures !ok ==> Written(a, EncList(enc, xs), c, false, all)
  {
    EncListNext(enc, xs, i);
    EncListGrows(enc, xs, i + 1);
    WrittenNext(a, EncList(enc, xs[..i]), b, true, true, enc(xs[i]), c, ok, p);
  }

  lemma ListStart<T>(a: Sink, enc: T -> string, xs: seq<T>)
    ensures Written(a, EncList(enc, xs[..0]), a, true, true)
  {
    assert xs[..0] == [] && EncList(enc, xs[..0]) == [];
    assert a.data + [] == a.data;
  }

  lemma ListEnd<T>(a: Sink, enc: T -> string, xs: seq<T>, b: Sink)
    requires Written(a, EncList(enc, xs[..|xs|]), b, true, true)
    ensures Written(a, EncList(enc, xs), b, true, true)
  {
    assert xs[..|xs|] == xs;
  }

  /** What the reader got so far, and what a failure means for the whole list. */
  lemma {:induction false} DecListFails<T>(dec: (string, nat) -> Decoded<T>, file: string, pos: nat, i: nat, n: nat)
    requires i <= n && DecList(dec, file, pos, i) == Fail
    ensures DecList(dec, file, pos, n) == Fail
    decreases n - i
  {
    if i < n { DecListFails(dec, file, pos, i + 1, n); }
  }

  lemma AllInIndex(ws: seq<string>, t: seq<string>, i: nat)
    requires i < |ws|
    ensures AllIn(ws, t) ==> ws[i] in t
  {
  }

  lemma AllInEach(ws: seq<string>, t: seq<string>)
    requires forall j :: 0 <= j < |ws| ==> ws[j] in t
    ensures AllIn(ws, t)
  {
  }

  class Database {
    var data: string
    var pos: nat
    var counting: bool
    var counter: nat
    var room: nat

    constructor (capacity: nat)
      ensures data == [] && pos == 0 && !counting && counter == 0 && room == capacity
    {
      data, pos, counting, counter, room := [], 0, false, 0, capacity;
    }

    function State(): Sink
      reads this
    {
      Sink(data, counter, counting, room)
    }

    // ---- The file ----

    method PutCh(b: nat) returns (ok: bool)
      requires b < 256
      modifies this`data, this`room
      ensures ok <==> old(room) > 0
      ensures data == if ok then old(data) + [Byte(b)] else old(data)
      ensures room == if ok then old(room) - 1 else old(room)
    {
      if room == 0 { return false; }
      data, room := data + [Byte(b)], room - 1;
      return true;
    }

    method GetCh() returns (ch: int)
      modifies this`pos
      ensures if old(pos) < |data| then ch == ByteAt(data, old(pos)) && pos == old(pos) + 1
              else ch == -1 && pos == old(pos)
    {
      if pos >= |data| { return -1; }
      ch := ByteAt(data, pos);
      pos := pos + 1;
    }

    /** Reads exactly `len` characters. */
    method ReadPlain(len: nat) returns (r: Option<string>)
      modifies this`pos
      ensures if old(pos) + len <= |data| then r == Some(data[old(pos)..old(pos) + len]) && pos == old(pos) + len
              else r == None
    {
      if pos + len > |data| { return None; }
      r := Some(data[pos..pos + len]);
      pos := pos + len;
    }

    method SeekRel(offset: nat)
      modifies this`pos
      ensures pos == old(pos) + offset
    {
      pos := pos + offset;
    }

    method SeekAbs(offset: nat)
      modifies this`pos
      ensures pos == offset
    {
      pos := offset;
    }

    // ---- Numbers ----

    method WriteUChar(c: nat) returns (ok: bool)
      requires c < 256
      modifies this`data, this`counter, this`room
      ensures Written(old(State()), EncByte(c), State(), ok, true)
    {
      if counting {
        counter := counter + 1;
        return true;
      }
      ok := PutCh(c);
    }

    method ReadUChar() returns (r: Option<UChar>)
      modifies this`pos
      ensures match DecByte(data, old(pos)) case Fail => r == None case Got(v, q) => r == Some(v) && pos == q
    {
      var ch := GetCh();
      return if ch == -1 then None else Some(ch);
    }

    /** One byte, or the byte 0xFF with its flag. */
    method WriteShort(c: nat) returns (ok: bool)
      requires c < 256
      modifies this`data, this`counter, this`room
      ensures Written(old(State()), EncNum(c), State(), ok, true)
    {
      assert EncNum(c) == Lead(c);
      if counting {
        counter := counter + if c == MAGICNUMCHAR then 2 else 1;
        return true;
      }
      ghost var before := data;
      ok := PutCh(c);
      if ok && c == MAGICNUMCHAR {
        ok := PutCh(0);
        assert before + [Byte(c)] + [Byte(0)] == before + Lead(c);
      }
    }

    /** The mask grows byte by byte until it covers the number. */
    method WriteNum(t: nat) returns (ok: bool)
      modifies this`data, this`counter, this`room
      ensures Written(old(State()), EncNum(t), State(), ok, true)
    {
      var c := t % 256;
      if t == c {
        ok := WriteShort(c);
        return;
      }
      var mask, count := 255 * 256 + 255, 1;
      while t > mask
        invariant count >= 1 && mask == OnesMask(count) && ExtraDigits(t) >= count
        invariant State() == old(State())
        decreases ExtraDigits(t) - count
      {
        MaskCovers(t, count);
        mask := mask * 256 + 255;
        count := count + 1;
      }
      MaskCovers(t, count);
      ok := WriteLong(t, count);
    }

    method WriteLong(t: nat, count: nat) returns (ok: bool)
      requires count == ExtraDigits(t) && count >= 1
      modifies this`data, this`counter, this`room
      ensures Written(old(State()), EncNum(t), State(), ok, true)
    {
      var d := ShiftBytes(t, count) % 256;
      if counting {
        counter := counter + (if d == MAGICNUMCHAR then 2 else 1) + 2 * count;
        return true;
      }
      hide ShiftBytes, ExtraDigits;
      ghost var before := State();
      ok := PutMagics(count);
      ghost var ok1 := ok;
      ghost var s1 := State();
      if ok { ok := PutLead(d); }
      ghost var s2 := State();
      WrittenNext(before, Magics(count), s1, ok1, true, Lead(d), s2, ok, true);
      ghost var ok2 := ok;
      if ok { ok := PutLow(t, count); }
      WrittenNext(before, Magics(count) + Lead(d), s2, ok2, true, LowDigits(t, count), State(), ok, true);
    }

    method PutMagics(count: nat) returns (ok: bool)
      requires !counting && count >= 1
      modifies this`data, this`room
      ensures Written(old(State()), Magics(count), State(), ok, true)
    {
      var r := count;
      while r > 0
        invariant r <= count && data == old(data) + Magics(count - r)
        invariant room + count == old(room) + r
      {
        ok := PutCh(MAGICNUMCHAR);
        if !ok { return; }
        r := r - 1;
        assert Magics(count - r) == Magics(count - r - 1) + [Byte(MAGICNUMCHAR)];
      }
      return true;
    }

    method PutLead(d: nat) returns (ok: bool)
      requires !counting && d < 256
      modifies this`data, this`room
      ensures Written(old(State()), Lead(d), State(), ok, true)
    {
      ok := PutCh(d);
      if ok && d == MAGICNUMCHAR {
        ok := PutCh(0);
        assert old(data) + [Byte(d)] + [Byte(0)] == old(data) + Lead(d);
      }
    }

    method PutLow(t: nat, count: nat) returns (ok: bool)
      requires !counting && count >= 1
      modifies this`data, this`room
      ensures Written(old(State()), LowDigits(t, count), State(), ok, true)
    {
      var k := count;
      while k > 0
        invariant k <= count && data + LowDigits(t, k) == old(data) + LowDigits(t, count)
        invariant room + count == old(room) + k
      {
        LowDigitsFront(t, k);
        ghost var was := data;
        ok := PutCh(ShiftBytes(t, k - 1) % 256);
        if !ok { return; }
        k := k - 1;
        assert was + ([Byte(ShiftBytes(t, k) % 256)] + LowDigits(t, k)) == data + LowDigits(t, k);
      }
      assert data + [] == data;
      return true;
    }

    method ReadNum() returns (r: Option<nat>)
      modifies this`pos
      ensures match DecNum(data, old(pos)) case Fail => r == None case Got(v, q) => r == Some(v) && pos == q
    {
      var ch := GetCh();
      if ch == -1 { return None; }
      if ch != MAGICNUMCHAR { return Some(ch); }
      var toget: nat := 1;
      ghost var goal := DecLong(data, pos, 1);
      while true
        invariant toget >= 1 && DecLong(data, pos, toget) == goal
        decreases if pos < |data| then |data| - pos else 0
      {
        ch := GetCh();
        if ch == -1 { return None; }
        if ch == MAGICNUMCHAR {
          toget := toget + 1;
          continue;
        }
        var ret: nat := ch;
        if ch == 0 {  // leading 0 after the count
          ret := MAGICNUMCHAR;
          toget := toget - 1;
        }
        while toget > 0
          invariant DecRest(data, pos, toget, ret) == goal
        {
          ch := GetCh();
          if ch == -1 { return None; }
          ret := ret * 256 + ch;
          toget := toget - 1;
        }
        return Some(ret);
      }
    }

    // ---- Strings and words ----

    method WriteStringPlain(str: string) returns (ok: bool)
      modifies this`data, this`counter, this`room
      ensures Written(old(State()), str, State(), ok, true)
    {
      if counting {
        counter := counter + |str|;
        return true;
      }
      if |str| > room { return false; }
      data, room := data + str, room - |str|;
      return true;
    }

    method WriteString(str: string) returns (ok: bool)
      modifies this`data, this`counter, this`room
      ensures Written(old(State()), EncString(str), State(), ok, true)
    {
      hide Written, EncNum;
      ghost var s0 := State();
      ok := WriteNum(|str|);
      ghost var s1, ok1 := State(), ok;
      if ok { ok := WriteStringPlain(str); }
      WrittenNext(s0, EncNum(|str|), s1, ok1, true, str, State(), ok, true);
    }

    method ReadString() returns (r: Option<string>)
      modifies this`pos
      ensures match DecString(data, old(pos)) case Fail => r == None case Got(v, q) => r == Some(v) && pos == q
    {
      var len := ReadNum();
      if len.None? { return None; }
      var buf := ReadPlain(len.value);
      if buf.None? { return None; }
      return Some(CStr(buf.value));
    }

    method SkipString() returns (ok: bool)
      modifies this`pos
      ensures match DecSkipString(data, old(pos)) case Fail => !ok case Got(_, q) => ok && pos == q
    {
      var len := ReadNum();
      if len.None? { return false; }
      if len.value != 0 { SeekRel(len.value); }
      return true;
    }

    /** Fails (the program exits) for a word that is not in the table. */
    method WriteHashString(hash: StringHash, s: string) returns (ok: bool)
      requires Ready(hash)
      modifies this`data, this`counter, this`room
      ensures Written(old(State()), EncWord(hash.words)(s), State(), ok, s in hash.words)
    {
      var i := hash.GetIndex(s);
      if i.None? { return false; }
      ok := WriteNum(i.value);
    }

    method ReadHashString(hash: StringHash) returns (r: Option<string>)
      modifies this`pos
      ensures match DecWordAt(hash.words, data, old(pos)) case Fail => r == None case Got(v, q) => r == Some(v) && pos == q
    {
      var i := ReadNum();
      if i.None? { return None; }
      r := hash.At(i.value);
    }

    method WriteHashWords(hash: StringHash, words: seq<string>) returns (ok: bool)
      requires Ready(hash)
      modifies this`data, this`counter, this`room
      ensures Written(old(State()), EncWords(hash.words, words), State(), ok, AllIn(words, hash.words))
    {
      ghost var s0 := State();
      ok := WriteNum(|words|);
      ghost var s1, ok1 := State(), ok;
      if ok { ok := WriteWordList(hash, words); }
      hide Written, EncNum, EncList, AllIn;
      WrittenNext(s0, EncNum(|words|), s1, ok1, true, EncList(EncWord(hash.words), words), State(), ok, AllIn(words, hash.words));
    }

    method WriteWordList(hash: StringHash, words: seq<string>) returns (ok: bool)
      requires Ready(hash)
      modifies this`data, this`counter, this`room
      ensures Written(old(State()), EncList(EncWord(hash.words), words), State(), ok, AllIn(words, hash.words))
    {
      hide Written, EncList, AllIn, Ready, EncWord;
      ghost var s0, table := State(), hash.words;
      ghost var enc := EncWord(table);
      ListStart(s0, enc, words);
      for i := 0 to |words|
        invariant Written(s0, EncList(enc, words[..i]), State(), true, true)
        invariant forall j :: 0 <= j < i ==> words[j] in table
        invariant hash.words == table && Ready(hash)
      {
        ghost var s1 := State();
        ok := WriteHashString(hash, words[i]);
        AllInIndex(words, table, i);
        ListStep(s0, enc, words, i, s1, State(), ok, words[i] in table, AllIn(words, table));
        if !ok { return; }
      }
      ListEnd(s0, enc, words, State());
      AllInEach(words, table);
      return true;
    }

    /** The words of a string. */
    method WriteHashWordsOf(hash: StringHash, str: string) returns (ok: bool)
      requires Ready(hash)
      modifies this`data, this`counter, this`room
      ensures Written(old(State()), EncWords(hash.words, Words(str)), State(), ok, AllIn(Words(str), hash.words))
    {
      hide Written, AllIn, EncVector;
      var words := SplitString(str, false, SPACES, true);
      ok := WriteHashWords(hash, words);
    }

    method ReadHashWords(hash: StringHash) returns (r: Option<seq<string>>)
      modifies this`pos
      ensures match DecWords(hash.words, data, old(pos)) case Fail => r == None case Got(v, q) => r == Some(v) && pos == q
    {
      var e := ReadNum();
      if e.None? { return None; }
      var ws := [];
      ghost var start, dec := pos, DecWord(hash.words);
      var i := 0;
      while i < e.value
        invariant i <= e.value && DecList(dec, data, start, i) == Got(ws, pos)
        invariant hash.words == old(hash.words)
      {
        var w := ReadHashString(hash);
        i := i + 1;
        if w.None? {
          DecListFails(dec, data, start, i, e.value);
          return None;
        }
        ws := ws + [w.value];
      }
      return Some(ws);
    }

    /** Reads words into one string. */
    method ReadJoinedWords(hash: StringHash) returns (r: Option<string>)
      modifies this`pos
      ensures match DecJoined(hash.words, data, old(pos)) case Fail => r == None case Got(v, q) => r == Some(v) && pos == q
    {
      var e := ReadNum();
      if e.None? { return None; }
      var s := [];
      ghost var ws: seq<string> := [];
      ghost var start, dec := pos, DecWord(hash.words);
      var i := 0;
      while i < e.value
        invariant i <= e.value && DecList(dec, data, start, i) == Got(ws, pos)
        invariant s == JoinLazily(ws, " ")
        invariant hash.words == old(hash.words)
      {
        var w := ReadHashString(hash);
        i := i + 1;
        if w.None? {
          DecListFails(dec, data, start, i, e.value);
          return None;
        }
        if s != [] { s := s + " "; }
        s := s + w.value;
        assert (ws + [w.value])[..|ws|] == ws;
        ws := ws + [w.value];
      }
      return Some(s);
    }

    method SkipHashWords() returns (ok: bool)
      modifies this`pos
      ensures match DecSkipWords(data, old(pos)) case Fail => !ok case Got(_, q) => ok && pos == q
    {
      var e := ReadNum();
      if e.None? { return false; }
      ghost var ws: seq<nat> := [];
      ghost var start := pos;
      var i := 0;
      while i < e.value
        invariant i <= e.value && DecList(DecNum, data, start, i) == Got(ws, pos)
      {
        var dummy := ReadNum();
        i := i + 1;
        if dummy.None? {
          DecListFails(DecNum, data, start, i, e.value);
          return false;
        }
        ws := ws + [dummy.value];
      }
      return true;
    }
  }

  /** Digits are written from the highest to the lowest. */
  lemma {:induction false} LowDigitsFront(t: nat, k: nat)
    requires k > 0
    ensures LowDigits(t, k) == [Byte(ShiftBytes(t, k - 1) % 256)] + LowDigits(t, k - 1)
  {
    if k > 1 {
      LowDigitsFront(t / 256, k - 1);
    }
  }
}
