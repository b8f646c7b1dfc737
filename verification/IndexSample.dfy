/** One small index, byte by byte, as the format is described in doc/eix-db.txt. */
module IndexSample {
  import opened NumberCodec
  import opened Strings
  import opened StringTable
  import opened Versions
  import opened Packages
  import opened IndexFormat

  // ---- Numbers ----

  /** A text of the given bytes. */
  function Bytes(bs: seq<nat>): (s: string)
    requires forall i :: 0 <= i < |bs| ==> bs[i] < 256
    ensures |s| == |bs| && forall i :: 0 <= i < |bs| ==> s[i] == bs[i] as char
  {
    seq(|bs|, i requires 0 <= i < |bs| => bs[i] as char)
  }

  lemma OneByte(n: nat)
    requires n < 255
    ensures EncNum(n) == Bytes([n])
  {
  }

  predicate AreDigits(ds: seq<nat>) { forall i :: 0 <= i < |ds| ==> ds[i] < 256 }

  /** The number with the given digits to the base 256, the highest first. */
  function Number(ds: seq<nat>): nat
  {
    if ds == [] then 0 else Number(ds[..|ds| - 1]) * 256 + ds[|ds| - 1]
  }

  lemma {:induction false} NumberParts(d: nat, ds: seq<nat>)
    requires 0 < d < 256 && AreDigits(ds)
    ensures var t := Number([d] + ds);
      t > 0 && ExtraDigits(t) == |ds| && ShiftBytes(t, |ds|) == d && LowDigits(t, |ds|) == Bytes(ds)
  {
    var n := |ds| - 1;
    if ds == [] {
      assert ([d] + ds)[..0] == [];
    } else {
      NumberParts(d, ds[..n]);
      assert ([d] + ds)[..n + 1] == [d] + ds[..n];
      var m := Number([d] + ds[..n]);
      assert Number([d] + ds) == m * 256 + ds[n];
      assert (m * 256 + ds[n]) / 256 == m && (m * 256 + ds[n]) % 256 == ds[n];
      assert Bytes(ds) == Bytes(ds[..n]) + [Byte(ds[n])];
    }
  }

  /** How often the escape byte stands in front. */
  function Escapes(n: nat): (s: string)
    ensures |s| == n && forall i :: 0 <= i < n ==> s[i] == 255 as char
  {
    seq(n, i => 255 as char)
  }

  lemma LeadIs(d: nat, k: nat)
    requires d < 256
    ensures Magics(k) + Lead(d) == if d < 255 then Escapes(k) + Bytes([d]) else Escapes(k + 1) + Bytes([0])
  {
  }

  /** One escape byte for each digit behind the first; a first digit 0xFF is an escape byte
      more and a 0x00. */
  lemma NumbersAreStored(d: nat, ds: seq<nat>)
    requires 0 < d < 256 && AreDigits(ds)
    ensures EncNum(Number([d] + ds))
         == (if d < 255 then Escapes(|ds|) + Bytes([d]) else Escapes(|ds| + 1) + Bytes([0])) + Bytes(ds)
  {
    hide Magics, Lead, Escapes, Bytes, LowDigits, ShiftBytes, Number, ExtraDigits, EncNum;
    NumberParts(d, ds);
    LeadIs(d, |ds|);
    NumberIs(Number([d] + ds), |ds|, d, Bytes(ds));
  }

  lemma NumberIs(t: nat, k: nat, d: nat, low: string)
    requires ExtraDigits(t) == k && ShiftBytes(t, k) == d < 256 && LowDigits(t, k) == low
    ensures EncNum(t) == Magics(k) + Lead(d) + low
  {
    hide Magics, Lead, LowDigits, ShiftBytes, ExtraDigits;
  }

  // ---- Lists and words ----

  lemma NoWords()
    ensures Words("") == []
  {
    WordsMean("", ' ', "", "x");
  }

  lemma OneWord(a: string)
    requires a != [] && NoSpace(a)
    ensures Words(a) == [a]
  {
    WordsOfJoin([a]);
  }

  lemma TwoWords(a: string, b: string)
    requires a != [] && NoSpace(a) && b != [] && NoSpace(b)
    ensures Words(a + " " + b) == [a, b]
  {
    WordsOfJoin([a, b]);
    assert [a, b][..1] == [a];
    assert Join([a, b], " ") == a + " " + b;
  }

  lemma NoItems<T>(enc: T -> string)
    ensures EncVector(enc, []) == Bytes([0])
  {
    OneByte(0);
    assert Bytes([0]) + [] == Bytes([0]);
  }

  lemma OneItem<T>(enc: T -> string, x: T)
    ensures EncVector(enc, [x]) == Bytes([1]) + enc(x)
  {
    OneByte(1);
    assert [x][..0] == [] && [] + enc(x) == enc(x);
    assert EncList(enc, [x]) == EncList(enc, []) + enc(x);
  }

  lemma TwoItems<T>(enc: T -> string, x: T, y: T)
    ensures EncVector(enc, [x, y]) == Bytes([2]) + (enc(x) + enc(y))
  {
    OneByte(2);
    assert [x, y][..1] == [x] && [x][..0] == [] && [] + enc(x) == enc(x);
    assert EncList(enc, [x]) == EncList(enc, []) + enc(x);
    assert EncList(enc, [x, y]) == EncList(enc, [x]) + enc(y);
  }

  /** The length of a short text, and the text. */
  function Counted(s: string): string
    requires |s| < 255
  {
    Bytes([|s|]) + s
  }

  lemma CountedIs(s: string)
    requires |s| < 255
    ensures Counted(s) == Bytes([|s|]) + s
  {
  }

  /** A short string is its length and its characters. */
  lemma ShortString(s: string)
    requires |s| < 255
    ensures EncString(s) == Bytes([|s|]) + s == Counted(s)
  {
    OneByte(|s|);
  }

  lemma IndexIs(t: seq<string>, i: nat)
    requires i < |t| < 255 && Distinct(t)
    ensures EncWord(t)(t[i]) == Bytes([i])
  {
    PlaceIs(t, i);
    OneByte(i);
  }

  lemma {:induction false} PlaceIs(t: seq<string>, i: nat)
    requires i < |t| && Distinct(t)
    ensures IndexOf(t, t[i]) == i
  {
    if i > 0 {
      assert t[0] != t[i];
      PlaceIs(t[1..], i - 1);
    }
  }

  // ---- The sample ----

  const TABLES := Tables(["7", "8"], ["GPL"], ["x86", "amd64"], ["a", "b"], ["", "s"], ["d", "e"])

  const SAMPLE := Version("8", 0x11, 4, 0x20, "amd64 x86", [BasicPart(FIRST, "1"), BasicPart(ALPHA, "")], "s", "",
                          1, "", 0, ["b"], "a", Depend("d", "e d", "", "e", ""), "u")

  const ALL_STORED := Flags(true, true, true)

  lemma TablesAreDistinct()
    ensures Distinct(TABLES.eapi) && Distinct(TABLES.license) && Distinct(TABLES.keywords)
    ensures Distinct(TABLES.iuse) && Distinct(TABLES.slot) && Distinct(TABLES.depend)
  {
    assert "x86"[0] != "amd64"[0] && "7"[0] != "8"[0] && "a"[0] != "b"[0] && |""| != |"s"| && "d"[0] != "e"[0];
  }

  lemma ByteIs(b: nat)
    requires b < 256
    ensures EncByte(b) == Bytes([b])
  {
  }

  /** EAPI, masks, restrictions. */
  lemma HeadBytes()
    ensures EncHead(TABLES, SAMPLE) == Bytes([1]) + (Bytes([0x11]) + (Bytes([4]) + Bytes([0x20])))
  {
    hide EncWord, EncNum, EncByte, Bytes, Distinct;
    TablesAreDistinct();
    IndexIs(TABLES.eapi, 1);
    ByteIs(0x11);
    ByteIs(4);
    OneByte(0x20);
  }

  lemma KeywordWords()
    ensures Words("amd64 x86") == ["amd64", "x86"]
  {
    hide Words;
    assert "amd64" + " " + "x86" == "amd64 x86";
    TwoWords("amd64", "x86");
  }

  lemma KeywordBytes()
    ensures EncWords(TABLES.keywords, Words(SAMPLE.keywords)) == Bytes([2, 1, 0])
  {
    hide EncVector, EncNum, EncWord, Words;
    TablesAreDistinct();
    KeywordWords();
    TwoItems(EncWord(TABLES.keywords), "amd64", "x86");
    IndexIs(TABLES.keywords, 1);
    IndexIs(TABLES.keywords, 0);
  }

  lemma PartBytes()
    ensures EncVector(EncPart(), SAMPLE.parts) == Bytes([2, 42]) + ("1" + Bytes([1]))
  {
    hide EncVector, EncNum;
    var p, q := BasicPart(FIRST, "1"), BasicPart(ALPHA, "");
    TwoItems(EncPart(), p, q);
    OneByte(42);
    OneByte(1);
    assert EncPart()(p) == Bytes([42]) + "1" && EncPart()(q) == Bytes([1]) + [];
  }

  lemma SlotBytes()
    ensures EncWord(TABLES.slot)(ShortSlot(SAMPLE)) + EncNum(SAMPLE.overlayKey) == Bytes([1, 1])
  {
    hide EncNum, EncWord;
    TablesAreDistinct();
    IndexIs(TABLES.slot, 1);
    OneByte(1);
    assert ShortSlot(SAMPLE) == "s";
  }

  /** Keywords, parts, slot, overlay. */
  lemma BodyBytes()
    ensures EncBody(TABLES, SAMPLE) == Bytes([2, 1, 0]) + ((Bytes([2, 42]) + ("1" + Bytes([1]))) + Bytes([1, 1]))
  {
    hide EncVector, EncNum, EncWord, EncWords, Words, Bytes;
    KeywordBytes();
    PartBytes();
    SlotBytes();
  }

  /** The dependencies behind their length. */
  lemma DependBytes()
    ensures EncDepend(TABLES.depend, SAMPLE.depend) == Bytes([9, 1, 0, 2, 1, 0, 0, 1, 1, 0])
  {
    hide EncVector, EncNum, EncWord, Words;
    var t, e := TABLES.depend, EncWord(TABLES.depend);
    TablesAreDistinct();
    OneWord("d");
    OneWord("e");
    TwoWords("e", "d");
    assert "e" + " " + "d" == "e d";
    NoWords();
    OneItem(e, "d");
    OneItem(e, "e");
    TwoItems(e, "e", "d");
    NoItems(e);
    IndexIs(t, 0);
    IndexIs(t, 1);
    OneByte(9);
    FiveFields(Bytes([1]) + Bytes([0]), Bytes([2]) + (Bytes([1]) + Bytes([0])), Bytes([0]), Bytes([1]) + Bytes([1]), Bytes([0]));
  }

  lemma FiveFields(a: string, b: string, c: string, d: string, e: string)
    requires a == Bytes([1]) + Bytes([0]) && b == Bytes([2]) + (Bytes([1]) + Bytes([0])) && c == Bytes([0]) && d == Bytes([1]) + Bytes([1]) && e == c
    ensures var z := a + (b + (c + (d + e))); |z| == 9 && Bytes([9]) + z == Bytes([9, 1, 0, 2, 1, 0, 0, 1, 1, 0])
  {
  }

  lemma UseBytes()
    ensures EncWords(TABLES.iuse, SAMPLE.iuse) == Bytes([1, 1]) && EncWords(TABLES.iuse, Words(SAMPLE.requiredUse)) == Bytes([1, 0])
  {
    hide EncVector, EncNum, EncWord, Words;
    var e := EncWord(TABLES.iuse);
    TablesAreDistinct();
    OneWord("a");
    OneItem(e, "b");
    OneItem(e, "a");
    IndexIs(TABLES.iuse, 0);
    IndexIs(TABLES.iuse, 1);
  }

  /** Useflags, and what is stored on demand. */
  lemma TailBytes()
    ensures EncTail(TABLES, ALL_STORED, SAMPLE)
         == Bytes([1, 1]) + (Bytes([1, 0]) + (Bytes([9, 1, 0, 2, 1, 0, 0, 1, 1, 0]) + (Bytes([1]) + "u")))
    ensures EncTail(TABLES, Flags(false, false, false), SAMPLE) == Bytes([1, 1])
  {
    hide EncWords, Words, EncDepend, EncString, Bytes;
    UseBytes();
    DependBytes();
    ShortString("u");
    Trailing(Bytes([1, 1]));
  }

  lemma Trailing(s: string)
    ensures s + ([] + ([] + [])) == s
  {
  }

  /** The whole version. */
  lemma VersionBytes()
    ensures EncVersionOf(TABLES, ALL_STORED, SAMPLE)
         == Bytes([1, 0x11, 4, 0x20, 2, 1, 0, 2, 42]) + "1" + Bytes([1, 1, 1, 1, 1, 1, 0, 9, 1, 0, 2, 1, 0, 0, 1, 1, 0, 1]) + "u"
  {
    hide EncHead, EncBody, EncTail, Bytes;
    HeadBytes();
    BodyBytes();
    TailBytes();
    FirstFour();
    var a, b, c, d, e, f := Bytes([1, 0x11, 4, 0x20]), Bytes([2, 1, 0]), Bytes([2, 42]), Bytes([1]), Bytes([1, 1]), Bytes([1, 0]);
    var g := Bytes([9, 1, 0, 2, 1, 0, 0, 1, 1, 0]);
    Flattened(a, b, c, "1", d, e, e, f, g, d, "u");
    FirstRun();
    SecondRun();
  }

  lemma FirstFour()
    ensures Bytes([1]) + (Bytes([0x11]) + (Bytes([4]) + Bytes([0x20]))) == Bytes([1, 0x11, 4, 0x20])
  {
  }

  lemma FirstRun()
    ensures Bytes([1, 0x11, 4, 0x20]) + Bytes([2, 1, 0]) + Bytes([2, 42]) == Bytes([1, 0x11, 4, 0x20, 2, 1, 0, 2, 42])
  {
  }

  lemma SecondRun()
    ensures Bytes([1]) + Bytes([1, 1]) + Bytes([1, 1]) + Bytes([1, 0]) + Bytes([9, 1, 0, 2, 1, 0, 0, 1, 1, 0]) + Bytes([1])
         == Bytes([1, 1, 1, 1, 1, 1, 0, 9, 1, 0, 2, 1, 0, 0, 1, 1, 0, 1])
  {
  }

  lemma Flattened(a: string, b: string, c: string, x: string, d: string, e: string, f: string, g: string, h: string, i: string, y: string)
    ensures a + ((b + ((c + (x + d)) + e)) + (f + (g + (h + (i + y))))) == (a + b + c) + x + (d + e + f + g + h + i) + y
  {
  }

  // ---- A package, its category and the header ----

  /** A package of one version. */
  lemma PackageBytes(t: Tables, stored: Flags, p: PackageData, i: nat, x: Version)
    requires |p.name| < 255 && |p.desc| < 255 && |p.homepage| < 255
    requires i < |t.license| < 255 && Distinct(t.license) && p.licenses == t.license[i] && p.versions == [x]
    ensures EncPackagePure(t, stored, p)
         == Counted(p.name) + (Counted(p.desc) + (Counted(p.homepage) + (Bytes([i]) + (Bytes([1]) + EncVersionOf(t, stored, x)))))
  {
    hide *;
    PackageText(t, stored, p);
    ShortString(p.name);
    ShortString(p.desc);
    ShortString(p.homepage);
    IndexIs(t.license, i);
    OneVersion(t, stored, x);
  }

  lemma PackageText(t: Tables, stored: Flags, p: PackageData)
    ensures EncPackagePure(t, stored, p)
         == EncString(p.name) + (EncString(p.desc) + (EncString(p.homepage)
          + (EncWord(t.license)(p.licenses) + EncVector(EncVersion(t, stored), p.versions))))
  {
    hide EncString, EncWord, EncVector, EncVersion;
  }

  lemma OneVersion(t: Tables, stored: Flags, x: Version)
    ensures EncVector(EncVersion(t, stored), [x]) == Bytes([1]) + EncVersionOf(t, stored, x)
  {
    hide *;
    OneItem(EncVersion(t, stored), x);
    VersionText(t, stored, x);
  }

  lemma VersionText(t: Tables, stored: Flags, x: Version)
    ensures EncVersion(t, stored)(x) == EncVersionOf(t, stored, x)
  {
    hide EncVersionOf;
  }

  lemma CategoryText(t: Tables, stored: Flags, name: string, p: PackageData)
    ensures EncCategoryOf(t, stored, Category(name, [p])) == EncString(name) + EncVector(EncPackage(t, stored), [p])
    ensures EncPackage(t, stored)(p) == EncNum(|EncPackagePure(t, stored, p)|) + EncPackagePure(t, stored, p)
  {
    hide EncString, EncVector, EncPackagePure, EncNum;
  }

  /** A package stands behind its length, and its category behind a name and a count. */
  lemma CategoryBytes(t: Tables, stored: Flags, name: string, p: PackageData)
    requires |name| < 255 && |EncPackagePure(t, stored, p)| < 255
    ensures EncCategoryOf(t, stored, Category(name, [p])) == Counted(name) + (Bytes([1]) + Counted(EncPackagePure(t, stored, p)))
  {
    hide *;
    ShortString(name);
    OneByte(|EncPackagePure(t, stored, p)|);
    OneItem(EncPackage(t, stored), p);
    CategoryText(t, stored, name, p);
    CountedIs(name);
    CountedIs(EncPackagePure(t, stored, p));
  }

  const SAMPLE_HEADER := Header(1, [Overlay("p", "r", 0)], TABLES, ALL_STORED, ["w"])

  lemma StartBytes()
    ensures EncStart(SAMPLE_HEADER) == "eix\n" + (Bytes([39]) + (Bytes([1]) + (Bytes([1]) + ((Bytes([1]) + "p") + (Bytes([1]) + "r")))))
  {
    hide EncVector, EncNum, EncString, Bytes;
    OneByte(39);
    OneByte(1);
    OneItem(EncOverlay(), Overlay("p", "r", 0));
    ShortString("p");
    ShortString("r");
  }

  lemma TableBytes(a: string, b: string)
    requires |a| < 255 && |b| < 255
    ensures EncTable([a]) == Bytes([1]) + (Bytes([|a|]) + a)
    ensures EncTable([a, b]) == Bytes([2]) + ((Bytes([|a|]) + a) + (Bytes([|b|]) + b))
  {
    hide EncVector, EncNum, EncString, Bytes;
    OneItem(EncStrings(), a);
    TwoItems(EncStrings(), a, b);
    ShortString(a);
    ShortString(b);
  }

  /** The tables in their order. */
  lemma TablesBytes()
    ensures EncTables(TABLES)
         == (Bytes([2]) + ((Bytes([1]) + "7") + (Bytes([1]) + "8"))) + ((Bytes([1]) + (Bytes([3]) + "GPL"))
          + ((Bytes([2]) + ((Bytes([3]) + "x86") + (Bytes([5]) + "amd64"))) + ((Bytes([2]) + ((Bytes([1]) + "a") + (Bytes([1]) + "b")))
          + (Bytes([2]) + ((Bytes([0]) + "") + (Bytes([1]) + "s"))))))
  {
    hide EncTable, Bytes;
    TableBytes("7", "8");
    TableBytes("GPL", "");
    TableBytes("x86", "amd64");
    TableBytes("a", "b");
    TableBytes("", "s");
  }

  /** World sets, the bits of what is stored, and the table of dependencies behind its length. */
  lemma EndBytes()
    ensures EncEnd(SAMPLE_HEADER)
         == (Bytes([1]) + (Bytes([1]) + "w")) + (Bytes([7]) + (Bytes([5]) + (Bytes([2]) + ((Bytes([1]) + "d") + (Bytes([1]) + "e")))))
    ensures Bitmask(Flags(true, false, false)) == 1 && Bitmask(Flags(false, true, false)) == 2 && Bitmask(Flags(false, false, true)) == 4
  {
    hide EncVector, EncTable, EncNum, EncString, Bytes;
    OneItem(EncStrings(), "w");
    ShortString("w");
    OneByte(7);
    OneByte(5);
    TableBytes("d", "e");
  }
}
