/** Version parts, and the order of versions. */
module Versions {

  /** Kinds of version parts, as the enumeration of the program numbers them. A number
      between 11 and 31 can be decoded from a file but is never written. */
  type PartType = n: nat | n < 32

  const GARBAGE: PartType := 0
  const ALPHA: PartType := 1
  const BETA: PartType := 2
  const PRE: PartType := 3
  const RC: PartType := 4
  const REVISION: PartType := 5
  const INTER_REV: PartType := 6
  const PATCH: PartType := 7
  const CHARACTER: PartType := 8
  const PRIMARY: PartType := 9
  const FIRST: PartType := 10

  datatype BasicPart = BasicPart(ptype: PartType, content: string)

  predicate IsDigit(c: char) { '0' <= c <= '9' }

  predicate IsAlpha(c: char) { 'a' <= c <= 'z' || 'A' <= c <= 'Z' }

  predicate Digits(s: string) { forall i :: 0 <= i < |s| ==> IsDigit(s[i]) }

  /** The shape of every part of a version that was parsed without garbage. */
  predicate Proper(p: BasicPart)
  {
    && ALPHA <= p.ptype <= FIRST
    && (if p.ptype == CHARACTER then |p.content| == 1 && IsAlpha(p.content[0]) else Digits(p.content))
    && (p.ptype == FIRST || p.ptype == PRIMARY ==> p.content != [])
  }

  predicate AllProper(ps: seq<BasicPart>) { forall i :: 0 <= i < |ps| ==> Proper(ps[i]) }

  // ---- Strings as the comparison functions see them ----

  function Sign(n: int): (r: int)
  {
    if n == 0 then 0 else if n < 0 then -1 else 1
  }

  /** `string::compare`, reduced to its sign. */
  function StrCompare(a: string, b: string): (r: int)
    ensures -1 <= r <= 1
  {
    if a == [] then (if b == [] then 0 else -1)
    else if b == [] then 1
    else if a[0] < b[0] then -1
    else if a[0] > b[0] then 1
    else StrCompare(a[1..], b[1..])
  }

  function StripZeros(s: string): (r: string)
    ensures |r| <= |s|
    ensures r != [] ==> r[0] != '0'
    ensures s != [] && s[0] != '0' ==> r == s
  {
    if s != [] && s[0] == '0' then StripZeros(s[1..]) else s
  }

  function TrimZeros(s: string): (r: string)
    ensures |r| <= |s|
  {
    if s != [] && s[|s| - 1] == '0' then TrimZeros(s[..|s| - 1]) else s
  }

  /** numeric_compare: leading zeros do not count, an empty number is 0. */
  function NumericCompare(left: string, right: string): (r: int)
    ensures -1 <= r <= 1
  {
    var l, r := StripZeros(left), StripZeros(right);
    if l == [] then (if r == [] then 0 else -1)
    else if r == [] then 1
    else if |l| != |r| then (if |l| < |r| then -1 else 1)
    else StrCompare(l, r)
  }

  predicate LeadingZero(s: string) { s != [] && s[0] == '0' }

  // ---- Comparison of parts and of versions ----

  function PartCompare(left: BasicPart, right: BasicPart): (r: int)
    ensures -1 <= r <= 1
  {
    var l, r := left.content, right.content;
    if left.ptype != right.ptype then (if left.ptype < right.ptype then -1 else 1)
    else if |l| == |r| then StrCompare(l, r)
    else if left.ptype == PRIMARY && (LeadingZero(l) || LeadingZero(r)) then
      StrCompare(TrimZeros(l), TrimZeros(r))
    else if left.ptype == GARBAGE then StrCompare(l, l)
    else NumericCompare(l, r)
  }

  predicate EqualButRightIsCut(left: BasicPart, right: BasicPart)
  {
    left.ptype == right.ptype && right.content == []
  }

  function CompareParts(left: seq<BasicPart>, right: seq<BasicPart>, rightMaybeShorter: bool): (r: int)
    ensures -1 <= r <= 1
  {
    if left == [] then
      if right == [] then 0 else if right[0].ptype < REVISION then 1 else -1
    else if right == [] then
      if rightMaybeShorter then 0 else if left[0].ptype < REVISION then -1 else 1
    else
      var ret := PartCompare(left[0], right[0]);
      if ret == 0 then CompareParts(left[1..], right[1..], rightMaybeShorter)
      else if rightMaybeShorter && |right| == 1 && EqualButRightIsCut(left[0], right[0]) then 0
      else ret
  }

  /** Order of versions. */
  function Compare(left: seq<BasicPart>, right: seq<BasicPart>): (r: int)
    ensures -1 <= r <= 1
  {
    CompareParts(left, right, false)
  }

  function CompareTildeParts(left: seq<BasicPart>, right: seq<BasicPart>): (r: int)
    ensures -1 <= r <= 1
  {
    var rightEnd := right == [] || right[0].ptype == REVISION;
    if left == [] || left[0].ptype == REVISION then (if rightEnd then 0 else -1)
    else if rightEnd then 1
    else
      var ret := PartCompare(left[0], right[0]);
      if ret != 0 then ret else CompareTildeParts(left[1..], right[1..])
  }

  method CompareVersions(left: seq<BasicPart>, right: seq<BasicPart>, rightMaybeShorter: bool) returns (r: int)
    ensures r == CompareParts(left, right, rightMaybeShorter)
  {
    var itLeft, itRight := 0, 0;
    assert left[0..] == left && right[0..] == right;
    while true
      invariant itLeft == itRight <= |left| && itRight <= |right|
      invariant CompareParts(left, right, rightMaybeShorter)
             == CompareParts(left[itLeft..], right[itRight..], rightMaybeShorter)
      decreases |left| - itLeft
    {
      if itLeft == |left| {
        if itRight == |right| { break; }
        return if right[itRight].ptype < REVISION then 1 else -1;
      } else if itRight == |right| {
        if rightMaybeShorter { break; }
        return if left[itLeft].ptype < REVISION then -1 else 1;
      }
      var ret := PartCompare(left[itLeft], right[itRight]);
      assert left[itLeft..][1..] == left[itLeft + 1..] && right[itRight..][1..] == right[itRight + 1..];
      if ret != 0 {
        if rightMaybeShorter {
          itRight := itRight + 1;
          if itRight == |right| && EqualButRightIsCut(left[itLeft], right[|right| - 1]) { return 0; }
        }
        return ret;
      }
      itLeft, itRight := itLeft + 1, itRight + 1;
    }
    return 0;
  }

  method CompareTilde(left: seq<BasicPart>, right: seq<BasicPart>) returns (r: int)
    ensures r == CompareTildeParts(left, right)
  {
    var itLeft, itRight := 0, 0;
    assert left[0..] == left && right[0..] == right;
    while true
      invariant itLeft == itRight <= |left| && itRight <= |right|
      invariant CompareTildeParts(left, right) == CompareTildeParts(left[itLeft..], right[itRight..])
      decreases |left| - itLeft
    {
      var rightEnd := itRight == |right| || right[itRight].ptype == REVISION;
      if itLeft == |left| || left[itLeft].ptype == REVISION {
        return if rightEnd then 0 else -1;
      } else if rightEnd {
        return 1;
      }
      var ret := PartCompare(left[itLeft], right[itRight]);
      if ret != 0 { return ret; }
      assert left[itLeft..][1..] == left[itLeft + 1..] && right[itRight..][1..] == right[itRight + 1..];
      itLeft, itRight := itLeft + 1, itRight + 1;
    }
  }

  // ---- The order is that of canonical keys ----

  /** `size` is -1 for a component that is compared as a fraction, and otherwise the
      number of digits without leading zeros. */
  datatype Key = Key(rank: int, size: int, text: string)

  function PartKey(p: BasicPart): Key
  {
    if p.ptype == PRIMARY && LeadingZero(p.content) then Key(2 * p.ptype, -1, TrimZeros(p.content))
    else Key(2 * p.ptype, |StripZeros(p.content)|, StripZeros(p.content))
  }

  function Keys(ps: seq<BasicPart>): (ks: seq<Key>)
    ensures |ks| == |ps| && forall i :: 0 <= i < |ps| ==> ks[i] == PartKey(ps[i])
  {
    seq(|ps|, i requires 0 <= i < |ps| => PartKey(ps[i]))
  }

  function KeyCompare(a: Key, b: Key): (r: int)
    ensures -1 <= r <= 1
  {
    if a.rank != b.rank then Sign(a.rank - b.rank)
    else if a.size != b.size then Sign(a.size - b.size)
    else StrCompare(a.text, b.text)
  }

  /** The end of a version ranks between rc and revision. */
  const END := Key(2 * REVISION - 1, 0, [])

  function Head(ks: seq<Key>): Key { if ks == [] then END else ks[0] }

  function LexCompare(a: seq<Key>, b: seq<Key>): (r: int)
    ensures -1 <= r <= 1
  {
    var c := KeyCompare(Head(a), Head(b));
    if c != 0 || a == [] || b == [] then c else LexCompare(a[1..], b[1..])
  }

  lemma {:induction false} StrAntisymmetric(a: string, b: string)
    ensures StrCompare(b, a) == -StrCompare(a, b)
    ensures StrCompare(a, b) == 0 <==> a == b
  {
    if a != [] && b != [] {
      StrAntisymmetric(a[1..], b[1..]);
      assert a[0] == b[0] && a[1..] == b[1..] ==> a == [a[0]] + a[1..] && b == [b[0]] + b[1..];
    }
  }

  /** The order of a dictionary: a beginning is before the whole, and else the first
      difference decides. */
  ghost predicate TextBefore(a: string, b: string)
  {
    (a != b && a <= b) || exists i :: 0 <= i < |a| && i < |b| && a[..i] == b[..i] && a[i] < b[i]
  }

  lemma {:induction false} StrCompareIsDictionary(a: string, b: string)
    ensures StrCompare(a, b) < 0 <==> TextBefore(a, b)
  {
    if a == [] || b == [] {
      assert a == [] ==> a <= b;
    } else if a[0] == b[0] {
      StrCompareIsDictionary(a[1..], b[1..]);
      assert a == [a[0]] + a[1..] && b == [b[0]] + b[1..];
      if i :| 0 <= i < |a| && i < |b| && a[..i] == b[..i] && a[i] < b[i] {
        assert a[1..][..i - 1] == a[..i][1..] && b[1..][..i - 1] == b[..i][1..];
        assert a[1..][i - 1] < b[1..][i - 1];
      }
      if i :| 0 <= i < |a[1..]| && i < |b[1..]| && a[1..][..i] == b[1..][..i] && a[1..][i] < b[1..][i] {
        assert a[..i + 1] == [a[0]] + a[1..][..i] && b[..i + 1] == [b[0]] + b[1..][..i];
        assert a[i + 1] < b[i + 1];
      }
    } else if a[0] < b[0] {
      assert a[..0] == b[..0] && a[0] < b[0];
    } else {
      forall i | 0 < i < |a| && i < |b| ensures a[..i] != b[..i] { assert a[..i][0] != b[..i][0]; }
    }
  }

  lemma {:induction false} StrTransitive(a: string, b: string, c: string)
    requires StrCompare(a, b) <= 0 && StrCompare(b, c) <= 0
    ensures StrCompare(a, c) <= 0
  {
    if a != [] && b != [] && c != [] && a[0] == b[0] == c[0] { StrTransitive(a[1..], b[1..], c[1..]); }
  }

  lemma KeyAntisymmetric(a: Key, b: Key)
    ensures KeyCompare(b, a) == -KeyCompare(a, b)
    ensures KeyCompare(a, b) == 0 <==> a == b
  {
    StrAntisymmetric(a.text, b.text);
  }

  lemma KeyTransitive(a: Key, b: Key, c: Key)
    requires KeyCompare(a, b) <= 0 && KeyCompare(b, c) <= 0
    ensures KeyCompare(a, c) <= 0
  {
    if a.rank == b.rank == c.rank && a.size == b.size == c.size { StrTransitive(a.text, b.text, c.text); }
  }

  predicate NoEnd(ks: seq<Key>) { forall i :: 0 <= i < |ks| ==> ks[i].rank != END.rank }

  lemma {:induction false} LexAntisymmetric(a: seq<Key>, b: seq<Key>)
    requires NoEnd(a) && NoEnd(b)
    ensures LexCompare(b, a) == -LexCompare(a, b)
    ensures LexCompare(a, b) == 0 <==> a == b
    decreases |a|
  {
    KeyAntisymmetric(Head(a), Head(b));
    if a != [] && b != [] {
      LexAntisymmetric(a[1..], b[1..]);
      if a[0] == b[0] && a[1..] == b[1..] { assert a == [a[0]] + a[1..] && b == [b[0]] + b[1..]; }
    }
  }

  lemma {:induction false} LexTransitive(a: seq<Key>, b: seq<Key>, c: seq<Key>)
    requires NoEnd(a) && NoEnd(b) && NoEnd(c)
    requires LexCompare(a, b) <= 0 && LexCompare(b, c) <= 0
    ensures LexCompare(a, c) <= 0
    decreases |a|
  {
    KeyTransitive(Head(a), Head(b), Head(c));
    KeyAntisymmetric(Head(a), Head(b));
    KeyAntisymmetric(Head(b), Head(c));
    KeyAntisymmetric(Head(a), Head(c));
    if Head(a) == Head(c) {
      KeyAntisymmetric(Head(c), Head(a));
      if a != [] && b != [] && c != [] { LexTransitive(a[1..], b[1..], c[1..]); }
    }
  }

  // ---- Parts compare like their keys ----

  /** Equal length: the string order is the numeric order. */
  lemma {:induction false} SameLengthNumeric(a: string, b: string)
    requires |a| == |b| && Digits(a) && Digits(b)
    ensures StrCompare(a, b) == NumericCompare(a, b)
  {
    if a != [] && a[0] == '0' && b[0] == '0' {
      SameLengthNumeric(a[1..], b[1..]);
    }
  }

  lemma {:induction false} TrimFront(s: string)
    requires s != []
    ensures TrimZeros(s) == if TrimZeros(s[1..]) == [] then (if s[0] == '0' then [] else [s[0]])
                            else [s[0]] + TrimZeros(s[1..])
  {
    var n := |s| - 1;
    assert s == s[..n] + [s[n]];
    if n > 0 {
      if s[n] == '0' {
        TrimFront(s[..n]);
        assert s[..n][1..] == s[1..][..n - 1];
      } else {
        assert s == [s[0]] + s[1..];
      }
    }
  }

  /** Equal length: trailing zeros do not change the string order. */
  lemma {:induction false} SameLengthTrimmed(a: string, b: string)
    requires |a| == |b| && Digits(a) && Digits(b)
    ensures StrCompare(a, b) == StrCompare(TrimZeros(a), TrimZeros(b))
  {
    if a != [] {
      TrimFront(a);
      TrimFront(b);
      SameLengthTrimmed(a[1..], b[1..]);
      var x, y := TrimZeros(a), TrimZeros(b);
      assert x != [] ==> x[0] == a[0] && x[1..] == TrimZeros(a[1..]);
      assert y != [] ==> y[0] == b[0] && y[1..] == TrimZeros(b[1..]);
    }
  }

  lemma TrimHead(s: string)
    requires s != []
    ensures TrimZeros(s) == [] ==> s[0] == '0'
    ensures TrimZeros(s) != [] ==> TrimZeros(s)[0] == s[0]
  {
    TrimFront(s);
  }

  lemma PartsCompareByKey(a: BasicPart, b: BasicPart)
    requires Proper(a) && Proper(b)
    ensures PartCompare(a, b) == KeyCompare(PartKey(a), PartKey(b))
  {
    var l, r := a.content, b.content;
    if a.ptype == b.ptype == PRIMARY {
      TrimHead(l);
      TrimHead(r);
      if LeadingZero(l) && LeadingZero(r) {
        if |l| == |r| { SameLengthTrimmed(l, r); }
      } else if !LeadingZero(l) && !LeadingZero(r) {
        if |l| == |r| { SameLengthNumeric(l, r); }
      }
    } else if a.ptype == b.ptype && a.ptype != CHARACTER {
      if |l| == |r| { SameLengthNumeric(l, r); }
    }
  }

  lemma {:induction false} VersionsCompareByKeys(a: seq<BasicPart>, b: seq<BasicPart>)
    requires AllProper(a) && AllProper(b)
    ensures Compare(a, b) == LexCompare(Keys(a), Keys(b))
    decreases |a|
  {
    if a != [] && b != [] {
      PartsCompareByKey(a[0], b[0]);
      VersionsCompareByKeys(a[1..], b[1..]);
      assert Keys(a)[1..] == Keys(a[1..]) && Keys(b)[1..] == Keys(b[1..]);
    }
  }

  lemma KeysHaveNoEnd(ps: seq<BasicPart>)
    requires AllProper(ps)
    ensures NoEnd(Keys(ps))
  {
  }

  /** Compare is a total preorder on versions without garbage: it is antisymmetric in
      sign and transitive, and versions are equal exactly if their keys are. */
  lemma CompareIsPreorder(a: seq<BasicPart>, b: seq<BasicPart>, c: seq<BasicPart>)
    requires AllProper(a) && AllProper(b) && AllProper(c)
    ensures Compare(b, a) == -Compare(a, b)
    ensures Compare(a, b) == 0 <==> Keys(a) == Keys(b)
    ensures Compare(a, b) <= 0 && Compare(b, c) <= 0 ==>
      Compare(a, c) <= 0 && (Compare(a, c) == 0 ==> Compare(a, b) == 0 && Compare(b, c) == 0)
  {
    hide Compare, LexCompare, Keys, PartKey, Proper;
    VersionsCompareByKeys(a, b);
    VersionsCompareByKeys(b, a);
    VersionsCompareByKeys(b, c);
    VersionsCompareByKeys(a, c);
    KeysHaveNoEnd(a);
    KeysHaveNoEnd(b);
    KeysHaveNoEnd(c);
    var x, y, z := Keys(a), Keys(b), Keys(c);
    LexAntisymmetric(x, y);
    LexAntisymmetric(y, z);
    LexAntisymmetric(x, z);
    if LexCompare(x, y) <= 0 && LexCompare(y, z) <= 0 {
      LexTransitive(x, y, z);
      if x == z { LexAntisymmetric(y, x); }
    }
  }

  // ---- Garbage ----

  /** The shape of every version that is accepted: garbage stands at the end, if at all. */
  predicate GarbageLast(ps: seq<BasicPart>)
  {
    && (forall i :: 0 <= i < |ps| - 1 ==> Proper(ps[i]))
    && (ps != [] ==> Proper(ps[|ps| - 1]) || ps[|ps| - 1].ptype == GARBAGE)
  }

  predicate HasGarbage(ps: seq<BasicPart>) { ps != [] && ps[|ps| - 1].ptype == GARBAGE }

  /** The parts in front of garbage. */
  function Front(ps: seq<BasicPart>): seq<BasicPart> { if HasGarbage(ps) then ps[..|ps| - 1] else ps }

  function Garbage(ps: seq<BasicPart>): string { if HasGarbage(ps) then ps[|ps| - 1].content else [] }

  /** Garbage of different length is equal. */
  function GarbageCompare(s: string, t: string): (r: int)
    ensures -1 <= r <= 1
  {
    if |s| == |t| then StrCompare(s, t) else 0
  }

  /** The keys of all parts, where all garbage is the same. */
  function Skeleton(ps: seq<BasicPart>): (ks: seq<Key>)
    ensures |ks| == |ps| && forall i :: 0 <= i < |ps| ==> ks[i] == SkeletonKey(ps[i])
  {
    seq(|ps|, i requires 0 <= i < |ps| => SkeletonKey(ps[i]))
  }

  function SkeletonKey(p: BasicPart): (k: Key)
    ensures k.rank == 2 * p.ptype
  {
    if p.ptype == GARBAGE then Key(2 * GARBAGE, 0, []) else PartKey(p)
  }

  lemma SkeletonsAgree(a: seq<BasicPart>, b: seq<BasicPart>)
    requires GarbageLast(a) && GarbageLast(b)
    ensures Skeleton(a) == Skeleton(b) <==> Keys(Front(a)) == Keys(Front(b)) && HasGarbage(a) == HasGarbage(b)
  {
    hide LeadingZero, TrimZeros, StripZeros;
    var x, y := Skeleton(a), Skeleton(b);
    if x == y {
      forall i | 0 <= i < |a| ensures a[i].ptype == b[i].ptype && SkeletonKey(a[i]) == SkeletonKey(b[i]) {
        assert x[i] == y[i];
      }
      assert Keys(Front(a)) == Keys(Front(b));
    }
    if Keys(Front(a)) == Keys(Front(b)) && HasGarbage(a) == HasGarbage(b) {
      forall i | 0 <= i < |a| ensures x[i] == y[i] {
        if i < |Front(a)| { assert Keys(Front(a))[i] == Keys(Front(b))[i]; }
      }
    }
  }

  lemma HeadsCompare(p: BasicPart, q: BasicPart)
    requires (Proper(p) || p.ptype == GARBAGE) && (Proper(q) || q.ptype == GARBAGE)
    ensures p.ptype == q.ptype == GARBAGE ==> PartCompare(p, q) == GarbageCompare(p.content, q.content)
    ensures !(p.ptype == q.ptype == GARBAGE) ==> PartCompare(p, q) == KeyCompare(SkeletonKey(p), SkeletonKey(q))
  {
    StrAntisymmetric(p.content, p.content);
    if Proper(p) && Proper(q) { PartsCompareByKey(p, q); }
  }

  /** Accepted versions compare as their skeletons do; where these are the same, garbage decides. */
  lemma {:induction false} CompareBySkeleton(a: seq<BasicPart>, b: seq<BasicPart>)
    requires GarbageLast(a) && GarbageLast(b)
    ensures var c := LexCompare(Skeleton(a), Skeleton(b));
      Compare(a, b) == if c == 0 && HasGarbage(a) && HasGarbage(b) then GarbageCompare(Garbage(a), Garbage(b)) else c
    decreases |a|
  {
    hide PartCompare, GarbageCompare, SkeletonKey, HasGarbage, Garbage;
    GarbageTail(a);
    GarbageTail(b);
    if a != [] && b != [] {
      HeadsCompare(a[0], b[0]);
      assert Skeleton(a)[1..] == Skeleton(a[1..]) && Skeleton(b)[1..] == Skeleton(b[1..]);
      CompareBySkeleton(a[1..], b[1..]);
      if a[0].ptype == b[0].ptype == GARBAGE {
        assert a[1..] == b[1..] == [];
        KeyAntisymmetric(SkeletonKey(a[0]), SkeletonKey(b[0]));
        GarbageKeys(a[0], b[0]);
      }
    }
  }

  lemma GarbageKeys(p: BasicPart, q: BasicPart)
    requires p.ptype == q.ptype == GARBAGE
    ensures SkeletonKey(p) == SkeletonKey(q)
  {
  }

  lemma GarbageTail(ps: seq<BasicPart>)
    requires GarbageLast(ps)
    ensures ps == [] ==> !HasGarbage(ps)
    ensures ps != [] && ps[0].ptype == GARBAGE ==> |ps| == 1 && HasGarbage(ps) && Garbage(ps) == ps[0].content
    ensures ps != [] && ps[0].ptype != GARBAGE ==>
      Proper(ps[0]) && GarbageLast(ps[1..]) && HasGarbage(ps) == HasGarbage(ps[1..]) && Garbage(ps) == Garbage(ps[1..])
  {
  }

  lemma SkeletonHasNoEnd(ps: seq<BasicPart>)
    requires GarbageLast(ps)
    ensures NoEnd(Skeleton(ps))
  {
  }

  /** Behind equal parts garbage of different length is equal, and of the same length it is a text. */
  lemma CompareGarbage(a: seq<BasicPart>, b: seq<BasicPart>, s: string, t: string)
    requires AllProper(a) && AllProper(b) && Keys(a) == Keys(b)
    ensures Compare(a + [BasicPart(GARBAGE, s)], b + [BasicPart(GARBAGE, t)]) == if |s| == |t| then StrCompare(s, t) else 0
  {
    var x, y := a + [BasicPart(GARBAGE, s)], b + [BasicPart(GARBAGE, t)];
    assert Front(x) == a && Front(y) == b;
    SkeletonsAgree(x, y);
    CompareBySkeleton(x, y);
    SkeletonHasNoEnd(x);
    LexAntisymmetric(Skeleton(x), Skeleton(y));
  }

  /** What three versions must be for their order to break. */
  predicate BreakOrder(a: seq<BasicPart>, b: seq<BasicPart>, c: seq<BasicPart>)
  {
    && HasGarbage(a) && HasGarbage(b) && HasGarbage(c)
    && Keys(Front(a)) == Keys(Front(b)) == Keys(Front(c))
    && |Garbage(a)| == |Garbage(c)| != |Garbage(b)|
    && StrCompare(Garbage(a), Garbage(c)) > 0
  }

  /** The order of accepted versions is transitive but for garbage: it breaks exactly where garbage
      of another length stands between two others. */
  lemma OrderBreaksExactly(a: seq<BasicPart>, b: seq<BasicPart>, c: seq<BasicPart>)
    requires GarbageLast(a) && GarbageLast(b) && GarbageLast(c)
    ensures Compare(a, b) <= 0 && Compare(b, c) <= 0 && Compare(a, c) > 0 <==> BreakOrder(a, b, c)
  {
    hide Skeleton, Compare, LexCompare, GarbageLast, Keys, HasGarbage, StrCompare;
    var x, y, z := Skeleton(a), Skeleton(b), Skeleton(c);
    CompareBySkeleton(a, b);
    CompareBySkeleton(b, c);
    CompareBySkeleton(a, c);
    SkeletonHasNoEnd(a);
    SkeletonHasNoEnd(b);
    SkeletonHasNoEnd(c);
    LexAntisymmetric(x, y);
    LexAntisymmetric(y, z);
    LexAntisymmetric(x, z);
    SkeletonsAgree(a, b);
    SkeletonsAgree(b, c);
    if LexCompare(x, y) <= 0 && LexCompare(y, z) <= 0 { LexTransitive(x, y, z); }
    if StrCompare(Garbage(a), Garbage(b)) <= 0 && StrCompare(Garbage(b), Garbage(c)) <= 0 {
      StrTransitive(Garbage(a), Garbage(b), Garbage(c));
    }
  }

  function OneWithGarbage(s: string): seq<BasicPart>
  {
    [BasicPart(FIRST, "1")] + [BasicPart(GARBAGE, s)]
  }

  /** Garbage of one character on both sides of garbage of two. */
  lemma GarbageBreaksOrder(x: char, y: char, t: string)
    requires x > y && |t| != 1
    ensures var a, b, c := OneWithGarbage([x]), OneWithGarbage(t), OneWithGarbage([y]);
      Compare(a, b) == 0 && Compare(b, c) == 0 && Compare(a, c) == 1
  {
    var one := [BasicPart(FIRST, "1")];
    CompareGarbage(one, one, [x], t);
    CompareGarbage(one, one, t, [y]);
    CompareGarbage(one, one, [x], [y]);
  }

  lemma PartAntisymmetric(a: BasicPart, b: BasicPart)
    ensures PartCompare(b, a) == -PartCompare(a, b)
  {
    StrAntisymmetric(a.content, b.content);
    StrAntisymmetric(a.content, a.content);
    StrAntisymmetric(b.content, b.content);
    StrAntisymmetric(TrimZeros(a.content), TrimZeros(b.content));
    StrAntisymmetric(StripZeros(a.content), StripZeros(b.content));
  }

  /** Swapping the operands always negates the result, even with garbage. */
  lemma {:induction false} CompareAntisymmetric(a: seq<BasicPart>, b: seq<BasicPart>)
    ensures Compare(b, a) == -Compare(a, b)
    decreases |a|
  {
    if a != [] && b != [] {
      PartAntisymmetric(a[0], b[0]);
      CompareAntisymmetric(a[1..], b[1..]);
    }
  }

  // ---- compareTilde ----

  /** The parts before the revision. */
  function Plain(ps: seq<BasicPart>): seq<BasicPart>
  {
    if ps == [] || ps[0].ptype == REVISION then [] else [ps[0]] + Plain(ps[1..])
  }

  /** compareTilde agrees with the order of the plain versions on equality. */
  lemma {:induction false} TildeEqualsPlainEqual(a: seq<BasicPart>, b: seq<BasicPart>)
    ensures CompareTildeParts(a, b) == 0 <==> Compare(Plain(a), Plain(b)) == 0
    decreases |a|
  {
    if a != [] && a[0].ptype != REVISION && b != [] && b[0].ptype != REVISION {
      TildeEqualsPlainEqual(a[1..], b[1..]);
      assert Plain(a)[1..] == Plain(a[1..]) && Plain(b)[1..] == Plain(b[1..]);
    }
  }

  /** The end of the version or its revision. */
  predicate Over(ps: seq<BasicPart>) { ps == [] || ps[0].ptype == REVISION }

  /** One version ends where the other, equal so far, goes on with a pre-release. */
  predicate StopsAtPrerelease(a: seq<BasicPart>, b: seq<BasicPart>)
    decreases |a|
  {
    if Over(a) then !Over(b) && b[0].ptype < REVISION
    else if Over(b) then a[0].ptype < REVISION
    else PartCompare(a[0], b[0]) == 0 && StopsAtPrerelease(a[1..], b[1..])
  }

  /** The sign is that of the order, but for versions that stop at a pre-release: there it is the
      opposite, as the version that ends first is put in front. */
  lemma {:induction false} TildeSignExactly(a: seq<BasicPart>, b: seq<BasicPart>)
    ensures CompareTildeParts(a, b) == Compare(Plain(a), Plain(b)) <==> !StopsAtPrerelease(a, b)
    ensures StopsAtPrerelease(a, b) ==> CompareTildeParts(a, b) == -Compare(Plain(a), Plain(b)) != 0
    decreases |a|
  {
    hide PartCompare;
    if !Over(a) && !Over(b) {
      TildeSignExactly(a[1..], b[1..]);
      assert Plain(a)[1..] == Plain(a[1..]) && Plain(b)[1..] == Plain(b[1..]);
    }
  }

  // ---- A right side that may be shorter ----

  /** The right side is equal to the front of the left one, but for a last part that may be cut. */
  predicate IsFrontOf(right: seq<BasicPart>, left: seq<BasicPart>)
  {
    var n := |right|;
    && n <= |left|
    && (Compare(left[..n], right) == 0
        || (n > 0 && Compare(left[..n - 1], right[..n - 1]) == 0
            && left[n - 1].ptype == right[n - 1].ptype && right[n - 1].content == []))
  }

  lemma FrontStep(left: seq<BasicPart>, right: seq<BasicPart>)
    requires left != [] && right != []
    ensures IsFrontOf(right, left) <==>
      || (PartCompare(left[0], right[0]) == 0 && IsFrontOf(right[1..], left[1..]))
      || (|right| == 1 && EqualButRightIsCut(left[0], right[0]))
  {
    hide PartCompare;
    var n := |right|;
    if n <= |left| {
      assert left[..n][1..] == left[1..][..n - 1] && left[..n][0] == left[0];
      if n > 1 {
        assert left[..n - 1][1..] == left[1..][..n - 2] && right[..n - 1][1..] == right[1..][..n - 2];
        assert left[..n - 1][0] == left[0] && right[..n - 1][0] == right[0];
      } else {
        assert left[..0] == right[..0] == [];
      }
    }
  }

  /** With a right side that may be shorter, versions are equal exactly if it is a front of the
      left one; else they are as far apart as without. */
  lemma {:induction false} ShorterIsFront(left: seq<BasicPart>, right: seq<BasicPart>)
    ensures CompareParts(left, right, true) == 0 <==> IsFrontOf(right, left)
    ensures CompareParts(left, right, true) == if IsFrontOf(right, left) then 0 else Compare(left, right)
    decreases |left|
  {
    hide PartCompare;
    if left != [] && right != [] {
      FrontStep(left, right);
      ShorterIsFront(left[1..], right[1..]);
    } else if right == [] {
      assert left[..0] == [];
    }
  }

  lemma {:induction false} SameParts(a: seq<BasicPart>, b: seq<BasicPart>)
    requires |a| == |b|
    ensures Compare(a, b) == 0 <==> forall i :: 0 <= i < |a| ==> PartCompare(a[i], b[i]) == 0
  {
    hide PartCompare;
    if a != [] {
      SameParts(a[1..], b[1..]);
      assert a == [a[0]] + a[1..] && b == [b[0]] + b[1..];
    }
  }

  /** One part of the right side is equal, or is the last one and cut. */
  predicate FrontAt(right: seq<BasicPart>, left: seq<BasicPart>, i: nat)
    requires i < |right| <= |left|
  {
    PartCompare(left[i], right[i]) == 0 || (i == |right| - 1 && EqualButRightIsCut(left[i], right[i]))
  }

  lemma FrontByParts(left: seq<BasicPart>, right: seq<BasicPart>)
    ensures IsFrontOf(right, left) <==> |right| <= |left| && forall i :: 0 <= i < |right| ==> FrontAt(right, left, i)
  {
    hide PartCompare, Compare;
    var n := |right|;
    if 0 < n <= |left| {
      SameParts(left[..n], right);
      SameParts(left[..n - 1], right[..n - 1]);
      if IsFrontOf(right, left) {
        forall i | 0 <= i < n ensures FrontAt(right, left, i) {
          if Compare(left[..n], right) == 0 { assert PartCompare(left[..n][i], right[i]) == 0; }
          else if i < n - 1 { assert PartCompare(left[..n - 1][i], right[..n - 1][i]) == 0; }
        }
      }
      if forall i :: 0 <= i < n ==> FrontAt(right, left, i) {
        forall i | 0 <= i < n - 1 ensures PartCompare(left[i], right[i]) == 0 { assert FrontAt(right, left, i); }
        assert FrontAt(right, left, n - 1);
      }
    } else if n == 0 {
      assert left[..0] == right;
      SameParts(left[..0], right);
    }
  }

  /** The last number of `middle` is left out, and that of `right` is a 0 that is written out. */
  predicate LosesCut(left: seq<BasicPart>, middle: seq<BasicPart>, right: seq<BasicPart>)
  {
    var n := |middle| - 1;
    && 0 <= n < |left| && |right| == |middle|
    && middle[n].content == [] && right[n].content != [] && PartCompare(left[n], right[n]) != 0
  }

  /** A front of a front is a front, exactly if no last number is written out in between. */
  lemma FrontOfFrontExactly(left: seq<BasicPart>, middle: seq<BasicPart>, right: seq<BasicPart>)
    requires AllProper(left) && AllProper(middle) && AllProper(right)
    requires IsFrontOf(middle, left) && IsFrontOf(right, middle)
    ensures IsFrontOf(right, left) <==> !LosesCut(left, middle, right)
  {
    hide IsFrontOf, PartCompare;
    FrontByParts(left, middle);
    FrontByParts(middle, right);
    FrontByParts(left, right);
    forall i | 0 <= i < |right| ensures FrontAt(right, left, i) <==> !(i == |right| - 1 && LosesCut(left, middle, right)) {
      assert FrontAt(middle, left, i) && FrontAt(right, middle, i);
      FrontOfFrontAt(left, middle, right, i);
    }
    if |right| > 0 { assert FrontAt(right, left, |right| - 1) <==> !LosesCut(left, middle, right); }
  }

  lemma FrontOfFrontAt(left: seq<BasicPart>, middle: seq<BasicPart>, right: seq<BasicPart>, i: nat)
    requires AllProper(left) && AllProper(middle) && AllProper(right)
    requires i < |right| <= |middle| <= |left| && FrontAt(middle, left, i) && FrontAt(right, middle, i)
    ensures FrontAt(right, left, i) <==> !(i == |right| - 1 && LosesCut(left, middle, right))
  {
    hide PartCompare;
    PartsCompareByKey(left[i], middle[i]);
    PartsCompareByKey(middle[i], right[i]);
    PartsCompareByKey(left[i], right[i]);
    KeyAntisymmetric(PartKey(left[i]), PartKey(middle[i]));
    KeyAntisymmetric(PartKey(middle[i]), PartKey(right[i]));
    KeyAntisymmetric(PartKey(left[i]), PartKey(right[i]));
  }
}
