/**
 The text form of a dimension key, `buildDimensionKeyHash` in
 `src/services/pricing-engine/matrix-pricing.resolver.ts`, by which the cells of a price matrix are
 stored and looked up.
 */
module DimensionKeys {
  import opened Common

  datatype Entry = Entry(name: string, value: string)

  /** The name under which a key holds the quantity band. */
  const QTY_BAND := "qtyBand"

  /** An object from names to texts, as the list of its entries in the order they were added. */
  type DimensionKey = seq<Entry>

  /** The order of texts that `sort` uses. */
  predicate Less(a: string, b: string) {
    b != "" && (a == "" || a[0] < b[0] || (a[0] == b[0] && Less(a[1..], b[1..])))
  }

  function Insert(e: Entry, sorted: DimensionKey): DimensionKey {
    if sorted == [] || Less(e.name, sorted[0].name) then [e] + sorted else [sorted[0]] + Insert(e, sorted[1..])
  }

  function Sort(key: DimensionKey): DimensionKey {
    if key == [] then [] else Insert(key[0], Sort(key[1..]))
  }

  function Segment(e: Entry): string {
    e.name + ("=" + e.value)
  }

  function Joined(key: DimensionKey): string {
    if key == [] then "" else Segment(key[0]) + if |key| == 1 then "" else "&" + Joined(key[1..])
  }

  function BuildDimensionKeyHash(key: DimensionKey): string {
    Joined(Sort(key))
  }

  predicate DistinctNames(key: DimensionKey) {
    forall i, j :: 0 <= i < j < |key| ==> key[i].name != key[j].name
  }

  /** The separators appear only where the text form puts them. */
  predicate IsClean(e: Entry) {
    && '&' !in e.name && '=' !in e.name
    && '&' !in e.value
  }

  predicate AllClean(key: DimensionKey) {
    forall e :: e in key ==> IsClean(e)
  }

  predicate SameEntries(k1: DimensionKey, k2: DimensionKey) {
    && (forall e :: e in k1 ==> e in k2)
    && (forall e :: e in k2 ==> e in k1)
  }

  // ---------- sorting

  lemma {:induction false} LessIsTotal(a: string, b: string)
    ensures a == b || Less(a, b) || Less(b, a)
    ensures !(Less(a, b) && (a == b || Less(b, a)))
    decreases a
  {
    if a != "" && b != "" {
      LessIsTotal(a[1..], b[1..]);
      assert a == [a[0]] + a[1..] && b == [b[0]] + b[1..];
    }
  }

  lemma {:induction false} LessIsTransitive(a: string, b: string, c: string)
    requires Less(a, b) && Less(b, c)
    ensures Less(a, c)
    decreases a
  {
    if a != "" && a[0] == b[0] == c[0] {
      LessIsTransitive(a[1..], b[1..], c[1..]);
    }
  }

  predicate IsSorted(key: DimensionKey) {
    key == [] || ((forall e :: e in key[1..] ==> Less(key[0].name, e.name)) && IsSorted(key[1..]))
  }

  lemma {:induction false} InsertKeepsSorted(e: Entry, sorted: DimensionKey)
    requires IsSorted(sorted) && forall f :: f in sorted ==> f.name != e.name
    ensures IsSorted(Insert(e, sorted)) && SameEntries(Insert(e, sorted), [e] + sorted)
    decreases sorted
  {
    if sorted != [] {
      var head, rest := sorted[0], sorted[1..];
      assert sorted == [head] + rest;
      LessIsTotal(e.name, head.name);
      assert head in sorted;
      if Less(e.name, head.name) {
        forall f | f in rest ensures Less(e.name, f.name) {
          LessIsTransitive(e.name, head.name, f.name);
        }
        assert ([e] + sorted)[1..] == sorted;
      } else {
        InsertKeepsSorted(e, rest);
        assert Insert(e, sorted)[1..] == Insert(e, rest);
      }
    }
  }

  lemma {:induction false} SortSorts(key: DimensionKey)
    requires DistinctNames(key)
    ensures IsSorted(Sort(key)) && SameEntries(Sort(key), key)
    decreases key
  {
    if key != [] {
      SortSorts(key[1..]);
      assert key == [key[0]] + key[1..];
      forall f | f in Sort(key[1..]) ensures f.name != key[0].name {
        assert f in key[1..];
      }
      InsertKeepsSorted(key[0], Sort(key[1..]));
    }
  }

  lemma {:induction false} SortedIsUnique(k1: DimensionKey, k2: DimensionKey)
    requires IsSorted(k1) && IsSorted(k2) && SameEntries(k1, k2)
    ensures k1 == k2
    decreases k1
  {
    assert k1 != [] ==> k1[0] in k1;
    assert k2 != [] ==> k2[0] in k2;
    if k1 != [] {
      var a, b := k1[0], k2[0];
      assert k1 == [a] + k1[1..] && k2 == [b] + k2[1..];
      LessIsTotal(a.name, b.name);
      LessIsTotal(a.name, a.name);
      assert a in k2 && b in k1;
      assert a == b;
      forall e ensures e in k1[1..] <==> e in k2[1..] {
        assert e in k1[1..] ==> e in k1 && e != a;
        assert e in k2[1..] ==> e in k2 && e != a;
      }
      SortedIsUnique(k1[1..], k2[1..]);
    }
  }

  // ---------- reading the text form back

  function CutAt(s: string, separator: char): nat {
    if s == "" || s[0] == separator then 0 else 1 + CutAt(s[1..], separator)
  }

  lemma {:induction false} CutAtIs(a: string, x: string, separator: char)
    requires separator !in a && (x == "" || x[0] == separator)
    ensures CutAt(a + x, separator) == |a|
    decreases a
  {
    if a == "" {
      assert a + x == x;
    } else {
      assert a == [a[0]] + a[1..] && (a + x)[1..] == a[1..] + x;
      CutAtIs(a[1..], x, separator);
    }
  }

  /** A text is cut in one way at the first separator. */
  lemma CutIsUnique(a: string, x: string, b: string, y: string, separator: char)
    requires a + x == b + y
    requires separator !in a && separator !in b
    requires (x == "" || x[0] == separator) && (y == "" || y[0] == separator)
    ensures a == b && x == y
  {
    CutAtIs(a, x, separator);
    CutAtIs(b, y, separator);
    assert a == (a + x)[..|a|] && b == (b + y)[..|b|];
    assert x == (a + x)[|a|..] && y == (b + y)[|b|..];
  }

  lemma SegmentIsInjective(e: Entry, f: Entry)
    requires IsClean(e) && IsClean(f) && Segment(e) == Segment(f)
    ensures e == f
  {
    CutIsUnique(e.name, "=" + e.value, f.name, "=" + f.value, '=');
    assert e.value == ("=" + e.value)[1..] && f.value == ("=" + f.value)[1..];
  }

  lemma EmptyIsJoinedIff(key: DimensionKey)
    ensures Joined(key) == "" <==> key == []
  {
    if key != [] {
      assert |Segment(key[0])| >= 1;
    }
  }

  lemma {:induction false} JoinedIsInjective(k1: DimensionKey, k2: DimensionKey)
    requires AllClean(k1) && AllClean(k2) && Joined(k1) == Joined(k2)
    ensures k1 == k2
    decreases k1
  {
    EmptyIsJoinedIff(k1);
    EmptyIsJoinedIff(k2);
    if k1 != [] {
      var t1 := if |k1| == 1 then "" else "&" + Joined(k1[1..]);
      var t2 := if |k2| == 1 then "" else "&" + Joined(k2[1..]);
      assert IsClean(k1[0]) && IsClean(k2[0]);
      CutIsUnique(Segment(k1[0]), t1, Segment(k2[0]), t2, '&');
      SegmentIsInjective(k1[0], k2[0]);
      assert t1 != "" ==> Joined(k1[1..]) == t1[1..];
      assert t2 != "" ==> Joined(k2[1..]) == t2[1..];
      assert k1 == [k1[0]] + k1[1..] && k2 == [k2[0]] + k2[1..];
      if |k1| > 1 {
        JoinedIsInjective(k1[1..], k2[1..]);
      }
    }
  }

  /** The text form does not depend on the order of the entries. */
  lemma HashIgnoresOrder(k1: DimensionKey, k2: DimensionKey)
    requires DistinctNames(k1) && DistinctNames(k2) && SameEntries(k1, k2)
    ensures BuildDimensionKeyHash(k1) == BuildDimensionKeyHash(k2)
  {
    SortSorts(k1);
    SortSorts(k2);
    SortedIsUnique(Sort(k1), Sort(k2));
  }

  /** Without separators inside names and values, equal text forms mean equal keys, and the other way round. */
  lemma HashTellsKeysApart(k1: DimensionKey, k2: DimensionKey)
    requires DistinctNames(k1) && DistinctNames(k2)
    requires AllClean(k1) && AllClean(k2)
    ensures BuildDimensionKeyHash(k1) == BuildDimensionKeyHash(k2) <==> SameEntries(k1, k2)
  {
    SortSorts(k1);
    SortSorts(k2);
    if BuildDimensionKeyHash(k1) == BuildDimensionKeyHash(k2) {
      JoinedIsInjective(Sort(k1), Sort(k2));
    } else if SameEntries(k1, k2) {
      HashIgnoresOrder(k1, k2);
    }
  }

  // ---------- separators inside values

  function Names(key: DimensionKey): (names: seq<string>)
    ensures |names| == |key| && forall i :: 0 <= i < |key| ==> names[i] == key[i].name
  {
    seq(|key|, i requires 0 <= i < |key| => key[i].name)
  }

  lemma {:induction false} SortOfSorted(key: DimensionKey)
    requires IsSorted(key)
    ensures Sort(key) == key
    decreases key
  {
    if key != [] {
      SortOfSorted(key[1..]);
      assert key == [key[0]] + key[1..];
      assert key[1..] == [] || key[1] in key[1..];
    }
  }

  /** Sortedness is a matter of names only. */
  lemma {:induction false} SortedByNames(k1: DimensionKey, k2: DimensionKey)
    requires IsSorted(k1) && Names(k1) == Names(k2)
    ensures IsSorted(k2)
    decreases k1
  {
    if k2 != [] {
      assert |k1| == |k2|;
      assert Names(k1[1..]) == Names(k1)[1..] == Names(k2)[1..] == Names(k2[1..]);
      SortedByNames(k1[1..], k2[1..]);
      assert k1[0].name == Names(k1)[0] == k2[0].name;
      forall e | e in k2[1..] ensures Less(k2[0].name, e.name) {
        var i :| 0 <= i < |k2[1..]| && k2[1..][i] == e;
        assert k1[1..][i] in k1[1..] && k1[1..][i].name == Names(k1[1..])[i] == e.name;
      }
    }
  }

  /** The text form up to a value, and after it. */
  function UpTo(before: DimensionKey, name: string): string {
    (if before == [] then "" else Joined(before) + "&") + (name + "=")
  }

  function After(rest: DimensionKey): string {
    if rest == [] then "" else "&" + Joined(rest)
  }

  lemma {:induction false} JoinedConcat(a: DimensionKey, b: DimensionKey)
    requires a != [] && b != []
    ensures Joined(a + b) == Joined(a) + ("&" + Joined(b))
    decreases a
  {
    assert (a + b)[0] == a[0] && (a + b)[1..] == a[1..] + b;
    if |a| > 1 {
      JoinedConcat(a[1..], b);
    }
  }

  lemma JoinedAt(before: DimensionKey, e: Entry, rest: DimensionKey)
    ensures Joined(before + ([e] + rest)) == UpTo(before, e.name) + (e.value + After(rest))
  {
    assert Joined([e] + rest) == Segment(e) + After(rest) by {
      assert ([e] + rest)[0] == e && ([e] + rest)[1..] == rest;
    }
    if before == [] {
      assert before + ([e] + rest) == [e] + rest;
      Regroup("", e.name, e.value, After(rest));
    } else {
      JoinedConcat(before, [e] + rest);
      Regroup(Joined(before) + "&", e.name, e.value, After(rest));
      hide Joined, After;
    }
  }

  lemma Regroup(before: string, name: string, value: string, rest: string)
    ensures before + (name + ("=" + value) + rest) == before + (name + "=") + (value + rest)
  {
  }

  function WithValues(key: DimensionKey, i: nat, j: nat, vi: string, vj: string): (k: DimensionKey)
    requires i < j < |key|
    ensures |k| == |key| && Names(k) == Names(key)
  {
    key[i := Entry(key[i].name, vi)][j := Entry(key[j].name, vj)]
  }

  /** The text between two values of a key. */
  function Between(key: DimensionKey, i: nat, j: nat): string
    requires i < j < |key|
  {
    "&" + UpTo(key[i + 1..j], key[j].name)
  }

  lemma JoinedAround(key: DimensionKey, i: nat, j: nat, vi: string, vj: string)
    requires i < j < |key|
    ensures Joined(WithValues(key, i, j, vi, vj))
         == UpTo(key[..i], key[i].name) + (vi + (Between(key, i, j) + (vj + After(key[j + 1..]))))
  {
    var ei, ej := Entry(key[i].name, vi), Entry(key[j].name, vj);
    var before, middle, rest := key[..i], key[i + 1..j], key[j + 1..];
    assert WithValues(key, i, j, vi, vj) == before + ([ei] + (middle + ([ej] + rest)));
    JoinedAt(before, ei, middle + ([ej] + rest));
    JoinedAt(middle, ej, rest);
    assert middle + ([ej] + rest) != [];
    RegroupAround(UpTo(before, ei.name), vi, UpTo(middle, ej.name), vj, After(rest));
    hide Joined, UpTo, WithValues;
  }

  lemma RegroupAround(before: string, vi: string, middle: string, vj: string, rest: string)
    ensures before + (vi + ("&" + (middle + (vj + rest)))) == before + (vi + (("&" + middle) + (vj + rest)))
  {
  }

  /** Two values for a place, with the text between the places moved from one to the other. */
  lemma MoveBetween(before: string, x: string, y: string, z: string, between: string, rest: string)
    ensures before + ((x + between + y) + (between + (z + rest)))
         == before + (x + (between + ((y + between + z) + rest)))
  {
  }

  /** With two values or more, two different keys that agree everywhere else have one text form. */
  lemma ValuesCollide(key: DimensionKey, i: nat, j: nat, x: string, y: string, z: string)
    requires IsSorted(key) && i < j < |key|
    ensures var between := Between(key, i, j);
            var k1 := WithValues(key, i, j, x + between + y, z);
            var k2 := WithValues(key, i, j, x, y + between + z);
            k1 != k2 && IsSorted(k1) && IsSorted(k2) && BuildDimensionKeyHash(k1) == BuildDimensionKeyHash(k2)
  {
    var between := Between(key, i, j);
    var k1 := WithValues(key, i, j, x + between + y, z);
    var k2 := WithValues(key, i, j, x, y + between + z);
    assert |k1[i].value| > |k2[i].value|;
    SortedByNames(key, k1);
    SortedByNames(key, k2);
    SortOfSorted(k1);
    SortOfSorted(k2);
    hide WithValues, Between, UpTo, After, Joined, Sort, IsSorted;
    JoinedAround(key, i, j, x + between + y, z);
    JoinedAround(key, i, j, x, y + between + z);
    MoveBetween(UpTo(key[..i], key[i].name), x, y, z, between, After(key[j + 1..]));
  }

  // ---------- one field besides the band

  function NameSet(key: DimensionKey): set<string> {
    set e | e in key :: e.name
  }

  /** A key over the band and these fields. */
  predicate IsNamed(key: DimensionKey, fields: seq<string>) {
    DistinctNames(key) && NameSet(key) == {QTY_BAND} + Elements(fields)
  }

  /** The band is a text of a quantity band, which holds no separator. */
  predicate HasOfferedBand(key: DimensionKey) {
    forall e :: e in key && e.name == QTY_BAND ==> '&' !in e.value
  }

  predicate IsOver(key: DimensionKey, fields: seq<string>) {
    IsNamed(key, fields) && HasOfferedBand(key)
  }

  function LastCutAt(s: string, separator: char): nat {
    if s == "" || s[|s| - 1] == separator then |s| else LastCutAt(s[..|s| - 1], separator)
  }

  lemma {:induction false} LastCutAtIs(a: string, x: string, separator: char)
    requires separator !in x
    ensures LastCutAt(a + [separator] + x, separator) == |a| + 1
    decreases x
  {
    if x == "" {
      assert a + [separator] + x == a + [separator];
    } else {
      var s := a + [separator] + x;
      assert s[..|s| - 1] == a + [separator] + x[..|x| - 1] && s[|s| - 1] == x[|x| - 1];
      LastCutAtIs(a, x[..|x| - 1], separator);
    }
  }

  /** A text is cut in one way at the last separator. */
  lemma LastCutIsUnique(a: string, x: string, b: string, y: string, separator: char)
    requires a + [separator] + x == b + [separator] + y
    requires separator !in x && separator !in y
    ensures a == b && x == y
  {
    LastCutAtIs(a, x, separator);
    LastCutAtIs(b, y, separator);
    assert a == (a + [separator] + x)[..|a|] && b == (b + [separator] + y)[..|b|];
    assert x == (a + [separator] + x)[|a| + 1..] && y == (b + [separator] + y)[|b| + 1..];
  }

  lemma SegmentTail(e: Entry, f: Entry)
    requires e.name == f.name && Segment(e) == Segment(f)
    ensures e == f
  {
    assert Segment(e)[|e.name| + 1..] == e.value && Segment(f)[|f.name| + 1..] == f.value;
  }

  lemma JoinedPair(e: Entry, f: Entry)
    ensures Joined([e, f]) == Segment(e) + ("&" + Segment(f))
  {
    assert [e, f][1..] == [f];
  }

  /** A band and a value, whichever comes first and whatever the value holds. */
  lemma PairIsToldApart(q1: Entry, v1: Entry, q2: Entry, v2: Entry)
    requires q1.name == q2.name == QTY_BAND && v1.name == v2.name
    requires '&' !in q1.value && '&' !in q2.value
    ensures Joined([q1, v1]) == Joined([q2, v2]) ==> q1 == q2 && v1 == v2
    ensures Joined([v1, q1]) == Joined([v2, q2]) ==> q1 == q2 && v1 == v2
  {
    JoinedPair(q1, v1);
    JoinedPair(q2, v2);
    JoinedPair(v1, q1);
    JoinedPair(v2, q2);
    if Joined([q1, v1]) == Joined([q2, v2]) {
      CutIsUnique(Segment(q1), "&" + Segment(v1), Segment(q2), "&" + Segment(v2), '&');
      assert Segment(v1) == ("&" + Segment(v1))[1..] == ("&" + Segment(v2))[1..] == Segment(v2);
      SegmentTail(q1, q2);
      SegmentTail(v1, v2);
    }
    if Joined([v1, q1]) == Joined([v2, q2]) {
      assert Segment(v1) + ("&" + Segment(q1)) == Segment(v1) + ['&'] + Segment(q1);
      assert Segment(v2) + ("&" + Segment(q2)) == Segment(v2) + ['&'] + Segment(q2);
      LastCutIsUnique(Segment(v1), Segment(q1), Segment(v2), Segment(q2), '&');
      SegmentTail(q1, q2);
      SegmentTail(v1, v2);
    }
  }

  lemma EntryOf(key: DimensionKey, name: string) returns (e: Entry)
    requires name in NameSet(key)
    ensures e in key && e.name == name
  {
    e :| e in key && e.name == name;
  }

  lemma NameGivesEntry(key: DimensionKey, e: Entry, f: Entry)
    requires DistinctNames(key) && e in key && f in key && e.name == f.name
    ensures e == f
  {
    var i :| 0 <= i < |key| && key[i] == e;
    var j :| 0 <= j < |key| && key[j] == f;
  }

  /** The two entries of a key over the band and one field. */
  lemma PairOf(key: DimensionKey, field: string) returns (q: Entry, v: Entry)
    requires IsOver(key, [field]) && field != QTY_BAND
    ensures q.name == QTY_BAND && v.name == field && '&' !in q.value
    ensures SameEntries(key, [q, v]) && DistinctNames([q, v])
  {
    assert NameSet(key) == {QTY_BAND, field};
    q := EntryOf(key, QTY_BAND);
    v := EntryOf(key, field);
    forall e | e in key ensures e == q || e == v {
      assert e.name in NameSet(key);
      NameGivesEntry(key, e, if e.name == QTY_BAND then q else v);
    }
  }

  lemma HashOfPair(key: DimensionKey, q: Entry, v: Entry)
    requires DistinctNames(key) && SameEntries(key, [q, v]) && q.name != v.name
    ensures BuildDimensionKeyHash(key) == if Less(q.name, v.name) then Joined([q, v]) else Joined([v, q])
  {
    var pair := if Less(q.name, v.name) then [q, v] else [v, q];
    LessIsTotal(q.name, v.name);
    assert pair[1..] == [pair[1]] && pair[1..][1..] == [];
    SortOfSorted(pair);
    HashIgnoresOrder(key, pair);
  }

  /** Over the band and at most one field, equal text forms mean equal keys, whatever separators the value holds. */
  lemma OneFieldIsToldApart(k1: DimensionKey, k2: DimensionKey, fields: seq<string>)
    requires |fields| <= 1 && QTY_BAND !in fields && IsOver(k1, fields) && IsOver(k2, fields)
    ensures BuildDimensionKeyHash(k1) == BuildDimensionKeyHash(k2) <==> SameEntries(k1, k2)
  {
    if SameEntries(k1, k2) {
      HashIgnoresOrder(k1, k2);
    }
    if fields == [] {
      BandAloneIsToldApart(k1, k2);
    } else {
      assert fields == [fields[0]];
      var q1, v1 := PairOf(k1, fields[0]);
      var q2, v2 := PairOf(k2, fields[0]);
      hide IsOver, BuildDimensionKeyHash;
      HashOfPair(k1, q1, v1);
      HashOfPair(k2, q2, v2);
      PairIsToldApart(q1, v1, q2, v2);
    }
  }

  lemma BandAloneIsToldApart(k1: DimensionKey, k2: DimensionKey)
    requires IsNamed(k1, []) && IsNamed(k2, [])
    ensures BuildDimensionKeyHash(k1) == BuildDimensionKeyHash(k2) ==> k1 == k2
  {
    var q1 := BandAlone(k1);
    var q2 := BandAlone(k2);
    assert [q1][1..] == [] && [q2][1..] == [];
    SortOfSorted(k1);
    SortOfSorted(k2);
    assert Joined([q1]) == Segment(q1) && Joined([q2]) == Segment(q2);
    if BuildDimensionKeyHash(k1) == BuildDimensionKeyHash(k2) {
      SegmentTail(q1, q2);
    }
  }

  lemma BandAlone(key: DimensionKey) returns (q: Entry)
    requires IsNamed(key, [])
    ensures q.name == QTY_BAND && key == [q]
  {
    q := EntryOf(key, QTY_BAND);
    forall i | 0 <= i < |key| ensures key[i] == q {
      assert key[i].name in NameSet(key);
      NameGivesEntry(key, key[i], q);
    }
    assert |key| > 1 ==> key[0].name == key[1].name;
  }

  /** The text form tells all keys over the band and these fields apart. */
  ghost predicate TellsAllApart(fields: seq<string>) {
    forall k1, k2 | IsOver(k1, fields) && IsOver(k2, fields) && NoneEmpty(k1) && NoneEmpty(k2) ::
      BuildDimensionKeyHash(k1) == BuildDimensionKeyHash(k2) ==> SameEntries(k1, k2)
  }

  /** Values are never empty: neither stored keys nor selections may leave one out. */
  predicate NoneEmpty(key: DimensionKey) {
    forall e :: e in key ==> e.value != ""
  }

  lemma {:induction false} SortedIsDistinct(key: DimensionKey)
    requires IsSorted(key)
    ensures DistinctNames(key)
    decreases key
  {
    if key != [] {
      SortedIsDistinct(key[1..]);
      assert key == [key[0]] + key[1..];
      forall i | 0 < i < |key| ensures key[i].name != key[0].name {
        assert key[i] in key[1..];
        LessIsTotal(key[0].name, key[i].name);
      }
    }
  }

  function PlainKey(fields: seq<string>, band: string): (key: DimensionKey)
    ensures |key| == |fields| + 1 && key[0] == Entry(QTY_BAND, band)
    ensures forall k :: 0 <= k < |fields| ==> key[k + 1] == Entry(fields[k], "v")
  {
    [Entry(QTY_BAND, band)] + seq(|fields|, k requires 0 <= k < |fields| => Entry(fields[k], "v"))
  }

  lemma PlainKeyIsOver(fields: seq<string>, band: string)
    requires QTY_BAND !in fields && '&' !in band && band != ""
    requires forall k, m :: 0 <= k < m < |fields| ==> fields[k] != fields[m]
    ensures IsOver(PlainKey(fields, band), fields) && NoneEmpty(PlainKey(fields, band))
  {
    var key := PlainKey(fields, band);
    assert forall n :: 0 < n < |key| ==> key[n] == Entry(fields[n - 1], "v") && fields[n - 1] in fields;
    forall name ensures name in NameSet(key) <==> name in {QTY_BAND} + Elements(fields) {
      if name == QTY_BAND {
        assert key[0] in key;
      } else if name in fields {
        var k :| 0 <= k < |fields| && fields[k] == name;
        assert key[k + 1] in key;
      }
    }
  }

  lemma SameEntriesIsOver(k1: DimensionKey, k2: DimensionKey, fields: seq<string>)
    requires IsOver(k1, fields) && NoneEmpty(k1) && SameEntries(k1, k2) && DistinctNames(k2)
    ensures IsOver(k2, fields) && NoneEmpty(k2)
  {
    forall name ensures name in NameSet(k1) <==> name in NameSet(k2) {
    }
  }

  /** Some key in order over the band and these fields, and the places of two of its entries. */
  lemma KeyOver(fields: seq<string>, band: string, a: nat, b: nat) returns (key: DimensionKey, i: nat, j: nat)
    requires a < b <= |fields| && QTY_BAND !in fields && '&' !in band && band != ""
    requires forall k, m :: 0 <= k < m < |fields| ==> fields[k] != fields[m]
    ensures IsSorted(key) && IsOver(key, fields) && NoneEmpty(key) && Entry(QTY_BAND, band) in key
    ensures i < j < |key|
    ensures var plain := PlainKey(fields, band);
            (key[i] == plain[a] && key[j] == plain[b]) || (key[i] == plain[b] && key[j] == plain[a])
  {
    var plain := PlainKey(fields, band);
    PlainKeyIsOver(fields, band);
    key := InOrder(plain, fields);
    assert plain[0] in plain && plain[a] in plain && plain[b] in plain;
    assert plain[a].name != plain[b].name;
    hide PlainKey, IsOver, NoneEmpty, IsSorted;
    i, j := PlacesOf(key, plain[a], plain[b]);
  }

  lemma InOrder(plain: DimensionKey, fields: seq<string>) returns (key: DimensionKey)
    requires IsOver(plain, fields) && NoneEmpty(plain)
    ensures IsSorted(key) && IsOver(key, fields) && NoneEmpty(key) && SameEntries(key, plain)
  {
    SortSorts(plain);
    key := Sort(plain);
    SortedIsDistinct(key);
    hide IsOver, NoneEmpty, IsSorted;
    SameEntriesIsOver(plain, key, fields);
  }

  lemma PlacesOf(key: DimensionKey, e: Entry, f: Entry) returns (i: nat, j: nat)
    requires e in key && f in key && e != f
    ensures i < j < |key| && ((key[i] == e && key[j] == f) || (key[i] == f && key[j] == e))
  {
    i :| 0 <= i < |key| && key[i] == e;
    j :| 0 <= j < |key| && key[j] == f;
    if j < i {
      i, j := j, i;
    }
  }

  lemma WithValuesIsNamed(key: DimensionKey, i: nat, j: nat, vi: string, vj: string, fields: seq<string>)
    requires IsNamed(key, fields) && NoneEmpty(key) && i < j < |key| && vi != "" && vj != ""
    ensures IsNamed(WithValues(key, i, j, vi, vj), fields) && NoneEmpty(WithValues(key, i, j, vi, vj))
  {
    var k := WithValues(key, i, j, vi, vj);
    assert forall n :: 0 <= n < |key| ==> k[n].name == key[n].name;
    forall name ensures name in NameSet(k) <==> name in NameSet(key) {
      if name in NameSet(key) {
        var e := EntryOf(key, name);
        var n :| 0 <= n < |key| && key[n] == e;
        assert k[n] in k;
      }
      if name in NameSet(k) {
        var e := EntryOf(k, name);
        var n :| 0 <= n < |k| && k[n] == e;
        assert key[n] in key;
      }
    }
  }

  /** A value for the band without a separator leaves the band one that can be offered. */
  lemma WithValuesIsOffered(key: DimensionKey, i: nat, j: nat, vi: string, vj: string)
    requires HasOfferedBand(key) && i < j < |key|
    requires (key[i].name == QTY_BAND ==> '&' !in vi) && (key[j].name == QTY_BAND ==> '&' !in vj)
    ensures HasOfferedBand(WithValues(key, i, j, vi, vj))
  {
    var k := WithValues(key, i, j, vi, vj);
    forall e | e in k && e.name == QTY_BAND ensures '&' !in e.value {
      var n :| 0 <= n < |k| && k[n] == e;
      assert n == i || n == j || key[n] in key;
    }
  }

  /**
   The text form is promised to be what uniqueness and lookups rely on. Among keys as they are stored
   and looked up it tells all apart exactly when there is at most one field besides the band.
   */
  lemma HashTellsAllApartIff(fields: seq<string>)
    requires QTY_BAND !in fields && forall k, m :: 0 <= k < m < |fields| ==> fields[k] != fields[m]
    ensures TellsAllApart(fields) <==> |fields| <= 1
  {
    if |fields| <= 1 {
      forall k1, k2 | IsOver(k1, fields) && IsOver(k2, fields)
                      && BuildDimensionKeyHash(k1) == BuildDimensionKeyHash(k2)
        ensures SameEntries(k1, k2)
      {
        OneFieldIsToldApart(k1, k2, fields);
      }
    } else {
      var key, i, j := KeyOver(fields, "1+", 1, 2);
      var k1, k2 := TwoWithOneHash(key, i, j, fields);
    }
  }

  lemma TwoWithOneHash(
    key: DimensionKey, i: nat, j: nat, fields: seq<string>)
    returns (k1: DimensionKey, k2: DimensionKey)
    requires IsSorted(key) && IsOver(key, fields) && NoneEmpty(key) && i < j < |key|
    requires key[i].name != QTY_BAND && key[j].name != QTY_BAND
    ensures k1 == WithValues(key, i, j, "x" + Between(key, i, j) + "y", "z")
    ensures k2 == WithValues(key, i, j, "x", "y" + Between(key, i, j) + "z")
    ensures IsOver(k1, fields) && IsOver(k2, fields) && NoneEmpty(k1) && NoneEmpty(k2)
    ensures BuildDimensionKeyHash(k1) == BuildDimensionKeyHash(k2)
    ensures Entry(key[j].name, "z") in k1 && Entry(key[j].name, "z") !in k2 && !SameEntries(k1, k2)
  {
    var between := Between(key, i, j);
    ValuesCollide(key, i, j, "x", "y", "z");
    k1 := WithValues(key, i, j, "x" + between + "y", "z");
    k2 := WithValues(key, i, j, "x", "y" + between + "z");
    WithValuesIsNamed(key, i, j, "x" + between + "y", "z", fields);
    WithValuesIsNamed(key, i, j, "x", "y" + between + "z", fields);
    WithValuesIsOffered(key, i, j, "x" + between + "y", "z");
    WithValuesIsOffered(key, i, j, "x", "y" + between + "z");
    assert k1[j] == Entry(key[j].name, "z") && k2[j].value[0] == 'y';
    if Entry(key[j].name, "z") in k2 {
      NameGivesEntry(k2, Entry(key[j].name, "z"), k2[j]);
      assert false;
    }
  }

  /** A separator in a band: one key as it is asked for, another with a band of its own, and one text form. */
  lemma BandCollision(fields: seq<string>) returns (asked: DimensionKey, stored: DimensionKey)
    requires |fields| >= 1 && QTY_BAND !in fields
    requires forall k, m :: 0 <= k < m < |fields| ==> fields[k] != fields[m]
    ensures IsOver(asked, fields) && NoneEmpty(asked) && Entry(QTY_BAND, "1+") in asked
    ensures IsNamed(stored, fields) && NoneEmpty(stored) && Entry(QTY_BAND, "1+") !in stored
    ensures BuildDimensionKeyHash(stored) == BuildDimensionKeyHash(asked)
  {
    var key, i, j := KeyOver(fields, "1+", 0, 1);
    var between := Between(key, i, j);
    var band: nat;
    if key[j].name == QTY_BAND {
      band := j;
      ValuesCollide(key, i, j, "x", "y", "1+");
      WithValuesIsNamed(key, i, j, "x" + between + "y", "1+", fields);
      WithValuesIsNamed(key, i, j, "x", "y" + between + "1+", fields);
      WithValuesIsOffered(key, i, j, "x" + between + "y", "1+");
      asked := WithValues(key, i, j, "x" + between + "y", "1+");
      stored := WithValues(key, i, j, "x", "y" + between + "1+");
    } else {
      band := i;
      ValuesCollide(key, i, j, "1+", "y", "z");
      WithValuesIsNamed(key, i, j, "1+", "y" + between + "z", fields);
      WithValuesIsNamed(key, i, j, "1+" + between + "y", "z", fields);
      WithValuesIsOffered(key, i, j, "1+", "y" + between + "z");
      asked := WithValues(key, i, j, "1+", "y" + between + "z");
      stored := WithValues(key, i, j, "1+" + between + "y", "z");
    }
    assert asked[band] == Entry(QTY_BAND, "1+") && stored[band].name == QTY_BAND && |stored[band].value| > 2;
    if Entry(QTY_BAND, "1+") in stored {
      NameGivesEntry(stored, Entry(QTY_BAND, "1+"), stored[band]);
      assert false;
    }
  }

  /** The text form tells all keys over the band and these fields apart, whatever text the band is. */
  ghost predicate TellsAllNamedApart(fields: seq<string>) {
    forall k1, k2 | IsNamed(k1, fields) && IsNamed(k2, fields) && NoneEmpty(k1) && NoneEmpty(k2) ::
      BuildDimensionKeyHash(k1) == BuildDimensionKeyHash(k2) ==> SameEntries(k1, k2)
  }

  /** With bands of any text, keys are told apart exactly when there is no field besides the band. */
  lemma HashTellsAllNamedApartIff(fields: seq<string>)
    requires QTY_BAND !in fields && forall k, m :: 0 <= k < m < |fields| ==> fields[k] != fields[m]
    ensures TellsAllNamedApart(fields) <==> fields == []
  {
    if fields == [] {
      forall k1, k2 | IsNamed(k1, fields) && IsNamed(k2, fields)
                      && BuildDimensionKeyHash(k1) == BuildDimensionKeyHash(k2)
        ensures SameEntries(k1, k2)
      {
        BandAloneIsToldApart(k1, k2);
      }
    } else {
      var asked, stored := BandCollision(fields);
      assert !SameEntries(asked, stored);
    }
  }
}
