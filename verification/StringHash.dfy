/** The word tables of the index: strings are counted while the tree is scanned, then
ordered by frequency, and from then on replaced by their index. */
module StringTable {
  import opened NumberCodec
  import opened Strings
  import opened Wrappers

  /** Position of a word in a table, `|ws|` if it is missing. */
  function IndexOf(ws: seq<string>, w: string): (i: nat)
    ensures i <= |ws|
    ensures i < |ws| ==> ws[i] == w
    ensures i == |ws| <==> w !in ws
  {
    if ws == [] then 0 else if ws[0] == w then 0 else 1 + IndexOf(ws[1..], w)
  }

  ghost predicate Distinct<T>(ws: seq<T>)
  {
    forall i, j :: 0 <= i < j < |ws| ==> ws[i] != ws[j]
  }

  ghost predicate Descending(ws: seq<string>, freq: multiset<string>)
  {
    forall i, j :: 0 <= i < j < |ws| ==> freq[ws[i]] >= freq[ws[j]]
  }

  ghost predicate SameWords(ws: seq<string>, hashed: seq<string>)
  {
    forall w :: w in ws <==> w in hashed
  }

  /** The order finalize() leaves: every hashed word once, more frequent words first. */
  ghost predicate FrequencyOrder(ws: seq<string>, hashed: seq<string>)
  {
    Distinct(ws) && SameWords(ws, hashed) && Descending(ws, multiset(hashed))
  }

  class StringHash {
    var words: seq<string>
    var strMap: map<string, nat>
    var hashing: bool
    var finalized: bool
    /** Everything passed to HashString since Init. */
    ghost var hashed: seq<string>

    ghost predicate Valid()
      reads this
    {
      && (hashing && !finalized ==>
            && (forall w :: w in strMap <==> w in hashed)
            && (forall w :: w in strMap ==> multiset(hashed)[w] == strMap[w] + 1))
      && (hashing && finalized ==>
            && FrequencyOrder(words, hashed)
            && (forall w :: w in strMap <==> w in hashed)
            && (forall i :: 0 <= i < |words| ==> words[i] in strMap && strMap[words[i]] == i))
      && (!hashing ==> strMap == map[] && hashed == [])
    }

    constructor ()
      ensures Valid() && hashing && !finalized && words == [] && hashed == []
    {
      words, strMap, hashing, finalized, hashed := [], map[], true, false, [];
    }

    method Init(willHash: bool)
      modifies this
      ensures Valid() && hashing == willHash && !finalized && words == [] && hashed == []
      ensures willHash ==> Open(this)
    {
      hashing := willHash;
      finalized := false;
      words, strMap, hashed := [], map[], [];
    }

    /** Fails (the program exits) after finalizing. */
    method StoreString(s: string) returns (ok: bool)
      requires Valid()
      modifies this
      ensures ok <==> !old(finalized)
      ensures Valid() && hashing == old(hashing) && finalized == old(finalized) && hashed == old(hashed)
      ensures words == if ok then old(words) + [s] else old(words)
    {
      if finalized { return false; }
      words := words + [s];
      return true;
    }

    /** Fails (the program exits) after finalizing or in non-hash mode. While hashing,
        the map is a frequency counter that starts at 0. */
    method HashString(s: string) returns (ok: bool)
      requires Valid()
      modifies this
      ensures ok <==> !old(finalized) && hashing
      ensures Valid() && hashing == old(hashing) && finalized == old(finalized) && words == old(words)
      ensures hashed == if ok then old(hashed) + [s] else old(hashed)
    {
      if finalized || !hashing { return false; }
      strMap := if s in strMap then strMap[s := strMap[s] + 1] else strMap[s := 0];
      hashed := hashed + [s];
      return true;
    }

    method HashWords(v: seq<string>) returns (ok: bool)
      requires Valid()
      modifies this
      ensures ok <==> v == [] || (!old(finalized) && hashing)
      ensures Valid() && hashing == old(hashing) && finalized == old(finalized) && words == old(words)
      ensures hashed == if ok then old(hashed) + v else old(hashed)
    {
      for i := 0 to |v|
        invariant Valid() && hashing == old(hashing) && finalized == old(finalized) && words == old(words)
        invariant hashed == old(hashed) + v[..i]
        invariant i > 0 ==> hashing && !finalized
      {
        ok := HashString(v[i]);
        if !ok { return; }
        assert v[..i + 1] == v[..i] + [v[i]];
      }
      assert v[..|v|] == v;
      return true;
    }

    method HashWordsOf(s: string) returns (ok: bool)
      requires Valid()
      modifies this
      ensures ok <==> Words(s) == [] || (!old(finalized) && hashing)
      ensures Valid() && hashing == old(hashing) && finalized == old(finalized) && words == old(words)
      ensures hashed == if ok then old(hashed) + Words(s) else old(hashed)
    {
      var v := SplitString(s, false, SPACES, true);
      ok := HashWords(v);
    }

    /** Replaces the frequency counter by the index map. */
    method Finalize()
      requires Valid()
      modifies this
      ensures Valid() && finalized && hashing == old(hashing) && hashed == old(hashed)
      ensures hashing ==> FrequencyOrder(words, hashed)
      ensures !hashing ==> words == old(words)
    {
      if finalized { return; }
      finalized := true;
      if !hashing { return; }
      var v := MakeVector(strMap);
      words := SortByFrequency(v, strMap);
      SortedIsDescending(words, strMap, multiset(hashed));
      strMap := IndexMap(words, strMap);
    }

    /** None: the program exits, because of an unfinished table or an unknown word. */
    method GetIndex(s: string) returns (r: Option<nat>)
      requires Valid()
      ensures r == if hashing && finalized && s in words then Some(IndexOf(words, s)) else None
    {
      if !finalized || s !in strMap { return None; }
      assert s in words;
      DistinctIndex(words, s, strMap[s]);
      return Some(strMap[s]);
    }

    /** None: the program exits, because the file is corrupt. */
    method At(i: nat) returns (r: Option<string>)
      ensures r == if i < |words| then Some(words[i]) else None
    {
      if i >= |words| { return None; }
      return Some(words[i]);
    }
  }

  /** The table is finished, so that words can be looked up. */
  ghost predicate Ready(hash: StringHash)
    reads hash
  {
    hash.Valid() && hash.hashing && hash.finalized
  }

  /** Words are still being counted. */
  ghost predicate Open(hash: StringHash)
    reads hash
  {
    hash.Valid() && hash.hashing && !hash.finalized
  }

  lemma DistinctIndex(ws: seq<string>, w: string, i: nat)
    requires Distinct(ws) && w in ws && (forall j :: 0 <= j < |ws| && ws[j] == w ==> j == i)
    ensures IndexOf(ws, w) == i
  {
  }

  /** The frequency counter turned into the index map, entry by entry. */
  method IndexMap(ws: seq<string>, freq: map<string, nat>) returns (m: map<string, nat>)
    requires Distinct(ws) && forall w :: w in ws ==> w in freq
    ensures m.Keys == freq.Keys
    ensures forall i :: 0 <= i < |ws| ==> ws[i] in m && m[ws[i]] == i
  {
    m := freq;
    for i := 0 to |ws|
      invariant m.Keys == freq.Keys
      invariant forall j :: 0 <= j < i ==> ws[j] in m && m[ws[j]] == j
    {
      m := m[ws[i] := i];
    }
  }

  method MakeVector(m: map<string, nat>) returns (v: seq<string>)
    ensures Distinct(v) && forall w :: w in v <==> w in m
  {
    v := [];
    var rest := m.Keys;
    while rest != {}
      invariant Distinct(v) && rest <= m.Keys
      invariant forall w :: w in v <==> w in m && w !in rest
      decreases |rest|
    {
      var w :| w in rest;
      v := v + [w];
      rest := rest - {w};
    }
  }

  ghost predicate SortedBy(ws: seq<string>, m: map<string, nat>)
    requires forall w :: w in ws ==> w in m
  {
    forall i, j :: 0 <= i < j < |ws| ==> m[ws[i]] >= m[ws[j]]
  }

  lemma SortedIsDescending(ws: seq<string>, m: map<string, nat>, freq: multiset<string>)
    requires (forall w :: w in ws ==> w in m) && SortedBy(ws, m)
    requires forall w :: w in m ==> freq[w] == m[w] + 1
    ensures Descending(ws, freq)
  {
    forall i, j | 0 <= i < j < |ws| ensures freq[ws[i]] >= freq[ws[j]] {
      assert m[ws[i]] >= m[ws[j]];
    }
  }

  /** The library sort with the frequency comparison; the order of equally frequent
      words is left open by the contract. */
  method SortByFrequency(v: seq<string>, m: map<string, nat>) returns (r: seq<string>)
    requires Distinct(v) && forall w :: w in v ==> w in m
    ensures Distinct(r) && (forall w :: w in r <==> w in v) && (forall w :: w in r ==> w in m)
    ensures SortedBy(r, m)
  {
    r := [];
    for k := 0 to |v|
      invariant Distinct(r) && (forall w :: w in r <==> w in v[..k]) && (forall w :: w in r ==> w in m)
      invariant SortedBy(r, m)
    {
      var w := v[k];
      var p := 0;
      while p < |r| && m[r[p]] >= m[w]
        invariant 0 <= p <= |r| && forall i :: 0 <= i < p ==> m[r[i]] >= m[w]
      {
        p := p + 1;
      }
      assert w in v;
      InsertSorted(r, w, p, m);
      assert v[..k + 1] == v[..k] + [w];
      r := r[..p] + [w] + r[p..];
    }
    assert v[..|v|] == v;
  }

  ghost predicate InsertedAt(s: seq<string>, r: seq<string>, w: string, p: nat)
  {
    && p <= |r| && |s| == |r| + 1 && s[p] == w
    && (forall i :: 0 <= i < p ==> s[i] == r[i]) && (forall i :: p < i < |s| ==> s[i] == r[i - 1])
  }

  lemma InsertDistinct(s: seq<string>, r: seq<string>, w: string, p: nat)
    requires InsertedAt(s, r, w, p) && Distinct(r) && w !in r
    ensures Distinct(s)
  {
    forall i, j | 0 <= i < j < |s| ensures s[i] != s[j] {
      if i == p { assert r[j - 1] in r; } else if j == p { assert r[i] in r; }
    }
  }

  lemma InsertOrdered(s: seq<string>, r: seq<string>, w: string, p: nat, m: map<string, nat>)
    requires InsertedAt(s, r, w, p) && (forall x :: x in r ==> x in m) && w in m && SortedBy(r, m)
    requires (forall i :: 0 <= i < p ==> m[r[i]] >= m[w]) && (p < |r| ==> m[w] > m[r[p]])
    requires forall x :: x in s ==> x in m
    ensures SortedBy(s, m)
  {
    forall i, j | 0 <= i < j < |s| ensures m[s[i]] >= m[s[j]] {
      if i == p && j > p + 1 { assert m[r[p]] >= m[r[j - 1]]; }
    }
  }

  lemma InsertSorted(r: seq<string>, w: string, p: nat, m: map<string, nat>)
    requires (forall x :: x in r ==> x in m) && w in m && Distinct(r) && SortedBy(r, m) && w !in r && p <= |r|
    requires forall i :: 0 <= i < p ==> m[r[i]] >= m[w]
    requires p < |r| ==> m[w] > m[r[p]]
    ensures var s := r[..p] + [w] + r[p..];
      (forall x :: x in s <==> x in r || x == w) && Distinct(s) && SortedBy(s, m)
  {
    hide Distinct, SortedBy;
    var s := r[..p] + [w] + r[p..];
    assert r == r[..p] + r[p..];
    InsertDistinct(s, r, w, p);
    InsertOrdered(s, r, w, p, m);
  }

  // ---- The frequency order is the cheapest one ----

  /** Bytes spent on references to the hashed words when the table is `ws`. */
  ghost function ReferenceBytes(ws: seq<string>, hashed: seq<string>): nat
  {
    if hashed == [] then 0
    else ReferenceBytes(ws, hashed[..|hashed| - 1]) + |EncNum(IndexOf(ws, hashed[|hashed| - 1]))|
  }

  /** The same sum, grouped by table entry. */
  ghost function WeightedLength(ws: seq<string>, freq: multiset<string>): nat
  {
    if ws == [] then 0
    else WeightedLength(ws[..|ws| - 1], freq) + freq[ws[|ws| - 1]] * NumLength(|ws| - 1)
  }

  lemma {:induction false} WeightOfOneMore(ws: seq<string>, freq: multiset<string>, w: string)
    requires Distinct(ws)
    ensures WeightedLength(ws, freq + multiset{w})
         == WeightedLength(ws, freq) + if w in ws then NumLength(IndexOf(ws, w)) else 0
  {
    hide NumLength;
    if ws != [] {
      var n := |ws| - 1;
      WeightOfOneMore(ws[..n], freq, w);
      if ws[n] == w {
        assert w !in ws[..n];
        DistinctIndex(ws, w, n);
        MulMinus(freq[w], 1, NumLength(n));
      } else {
        assert w in ws <==> w in ws[..n];
        if w in ws {
          var i := IndexOf(ws[..n], w);
          DistinctIndex(ws, w, i);
        }
      }
    }
  }

  lemma {:induction false} ReferenceBytesByWord(ws: seq<string>, hashed: seq<string>)
    requires Distinct(ws) && forall w :: w in hashed ==> w in ws
    ensures ReferenceBytes(ws, hashed) == WeightedLength(ws, multiset(hashed))
  {
    hide WeightedLength, IndexOf;
    if hashed == [] {
      WeightZero(ws);
    } else {
      var n := |hashed| - 1;
      var w := hashed[n];
      assert w in hashed;
      assert forall x :: x in hashed[..n] ==> x in hashed;
      ReferenceBytesByWord(ws, hashed[..n]);
      WeightOfOneMore(ws, multiset(hashed[..n]), w);
      assert hashed == hashed[..n] + [w];
    }
  }

  lemma {:induction false} WeightZero(ws: seq<string>)
    ensures WeightedLength(ws, multiset{}) == 0
  {
    if ws != [] { WeightZero(ws[..|ws| - 1]); }
  }

  lemma MulMinus(a: int, b: int, n: int)
    ensures (a - b) * n == a * n - b * n && (a + b) * n == a * n + b * n
  {
  }

  lemma {:induction false} WeightUpdate(ws: seq<string>, freq: multiset<string>, k: nat, x: string)
    requires k < |ws|
    ensures WeightedLength(ws[k := x], freq) == WeightedLength(ws, freq) + (freq[x] - freq[ws[k]]) * NumLength(k)
  {
    hide NumLength;
    var n := |ws| - 1;
    if k == n {
      assert ws[k := x][..n] == ws[..n];
      MulMinus(freq[x], freq[ws[k]], NumLength(k));
    } else {
      assert ws[k := x][..n] == ws[..n][k := x];
      WeightUpdate(ws[..n], freq, k, x);
    }
  }

  lemma LengthMonotone(i: nat, j: nat)
    requires i <= j
    ensures NumLength(i) <= NumLength(j)
  {
    NumLengthMonotone(i, j);
  }

  lemma Exchange(a: nat, b: nat, l: nat, m: nat)
    requires a >= b && l <= m
    ensures a * m >= (a - b) * l + b * m
  {
    MulLe(a - b, l, m);
    assert (a - b) * m == a * m - b * m;
  }

  /** Moving a least frequent word to the end never costs bytes. */
  lemma SwapToEnd(ws: seq<string>, freq: multiset<string>, k: nat)
    requires k < |ws| - 1 && freq[ws[|ws| - 1]] >= freq[ws[k]]
    ensures var n := |ws| - 1;
      WeightedLength(ws, freq) >= WeightedLength(ws[..n][k := ws[n]], freq) + freq[ws[k]] * NumLength(n)
  {
    var n := |ws| - 1;
    WeightUpdate(ws[..n], freq, k, ws[n]);
    LengthMonotone(k, n);
    Exchange(freq[ws[n]], freq[ws[k]], NumLength(k), NumLength(n));
  }

  lemma MulLe(a: nat, x: nat, y: nat)
    requires x <= y
    ensures a * x <= a * y
  {
  }

  /** The rearrangement argument. */
  lemma {:induction false} FrequencyOrderIsCheapest(ws: seq<string>, other: seq<string>, freq: multiset<string>)
    requires Distinct(ws) && Distinct(other) && |ws| == |other| && (forall w :: w in other ==> w in ws)
    requires Descending(ws, freq)
    ensures WeightedLength(ws, freq) <= WeightedLength(other, freq)
    decreases |ws|
  {
    if ws != [] {
      var n := |ws| - 1;
      var k := WhereIsLast(ws, other);
      var rest := other[..n];
      assert other[n] in other;
      if k != n {
        SwapToEnd(other, freq, k);
        rest := other[..n][k := other[n]];
      }
      RestWithin(ws, other, rest, k);
      FrequencyOrderIsCheapest(ws[..n], rest, freq);
    }
  }

  lemma RestWithin(ws: seq<string>, other: seq<string>, rest: seq<string>, k: nat)
    requires Distinct(other) && |ws| == |other| && |ws| > 0 && (forall w :: w in other ==> w in ws)
    requires k < |other| && other[k] == ws[|ws| - 1]
    requires rest == if k == |ws| - 1 then other[..|ws| - 1] else other[..|ws| - 1][k := other[|ws| - 1]]
    ensures Distinct(rest) && forall w :: w in rest ==> w in ws[..|ws| - 1]
  {
    forall i | 0 <= i < |rest| ensures rest[i] in ws[..|ws| - 1] {
      var j := if i == k then |ws| - 1 else i;
      assert rest[i] == other[j] && other[j] in other && other[j] != other[k];
    }
  }

  /** A distinct list inside a list of the same length uses every element. */
  lemma WhereIsLast(ws: seq<string>, other: seq<string>) returns (k: nat)
    requires Distinct(ws) && Distinct(other) && |ws| == |other| > 0 && (forall w :: w in other ==> w in ws)
    ensures k < |other| && other[k] == ws[|ws| - 1]
  {
    var n := |ws| - 1;
    if ws[n] !in other {
      forall i | 0 <= i < |other| ensures other[i] in ws[..n] { assert other[i] in other; }
      Pigeonhole(other, ws[..n]);
    }
    k := IndexOf(other, ws[n]);
  }

  lemma {:induction false} Pigeonhole(a: seq<string>, b: seq<string>)
    requires Distinct(a) && forall i :: 0 <= i < |a| ==> a[i] in b
    ensures |a| <= |b|
    decreases |a|
  {
    if a != [] {
      var n := |a| - 1;
      var k := IndexOf(b, a[n]);
      var b' := b[..k] + b[k + 1..];
      forall i | 0 <= i < n ensures a[..n][i] in b' {
        var j := IndexOf(b, a[i]);
        assert b'[if j < k then j else j - 1] == a[i];
      }
      Pigeonhole(a[..n], b');
    }
  }

  /** Among all orders of the table, the one of finalize() minimises the bytes the
      references to the hashed words take in the file. */
  lemma FinalizeIsOptimal(ws: seq<string>, other: seq<string>, hashed: seq<string>)
    requires FrequencyOrder(ws, hashed) && Distinct(other) && SameWords(other, hashed)
    ensures ReferenceBytes(ws, hashed) <= ReferenceBytes(other, hashed)
  {
    forall i | 0 <= i < |ws| ensures ws[i] in other { assert ws[i] in hashed; }
    forall i | 0 <= i < |other| ensures other[i] in ws { assert other[i] in hashed; }
    Pigeonhole(ws, other);
    Pigeonhole(other, ws);
    ReferenceBytesByWord(ws, hashed);
    ReferenceBytesByWord(other, hashed);
    FrequencyOrderIsCheapest(ws, other, multiset(hashed));
  }
}
