/** Slugs, `src/utils/slug.ts`. */
module Slug {
  import opened Text

  const MAX_LENGTH: nat := 80

  predicate IsSlugChar(c: char) {
    'a' <= c <= 'z' || '0' <= c <= '9'
  }

  /** Every run of other characters becomes one hyphen. */
  function Hyphenate(s: string): string {
    if s == "" then ""
    else if IsSlugChar(s[0]) then [s[0]] + Hyphenate(s[1..])
    else if |s| > 1 && !IsSlugChar(s[1]) then Hyphenate(s[1..])
    else "-" + Hyphenate(s[1..])
  }

  function StripStart(s: string): string {
    if s != "" && s[0] == '-' then StripStart(s[1..]) else s
  }

  function StripEnd(s: string): string {
    if s != "" && s[|s| - 1] == '-' then StripEnd(s[..|s| - 1]) else s
  }

  function Cut(s: string): string {
    if |s| <= MAX_LENGTH then s else s[..MAX_LENGTH]
  }

  /** `lower` stands for the runtime's Unicode lower-casing. */
  function Slugify(text: string, lower: string -> string): string {
    Cut(StripEnd(StripStart(Hyphenate(Trim(lower(text))))))
  }

  // ---------- the shape of a slug

  /** Slug characters and hyphens, and never two hyphens in a row. */
  ghost predicate SingleHyphens(s: string) {
    && (forall i :: 0 <= i < |s| ==> IsSlugChar(s[i]) || s[i] == '-')
    && (forall i, j :: 0 <= i && j == i + 1 && j < |s| ==> !(s[i] == '-' && s[j] == '-'))
  }

  ghost predicate IsSlug(s: string) {
    && SingleHyphens(s)
    && |s| <= 80
    && (s != "" ==> s[0] != '-')
    && (s != "" && s[|s| - 1] == '-' ==> |s| == 80)
  }

  lemma {:induction false} HyphenateIsSingle(s: string)
    ensures SingleHyphens(Hyphenate(s))
    ensures Hyphenate(s) != "" && Hyphenate(s)[0] == '-' ==> s != "" && !IsSlugChar(s[0])
    decreases s
  {
    if s != "" {
      HyphenateIsSingle(s[1..]);
    }
  }

  lemma {:induction false} StripStartKeeps(s: string)
    requires SingleHyphens(s)
    ensures SingleHyphens(StripStart(s)) && (StripStart(s) != "" ==> StripStart(s)[0] != '-')
    decreases s
  {
    if s != "" && s[0] == '-' {
      StripStartKeeps(s[1..]);
    }
  }

  lemma {:induction false} StripEndKeeps(s: string)
    requires SingleHyphens(s) && (s != "" ==> s[0] != '-')
    ensures var r := StripEnd(s); SingleHyphens(r) && (r != "" ==> r[0] != '-' && r[|r| - 1] != '-')
    decreases s
  {
    if s != "" && s[|s| - 1] == '-' {
      StripEndKeeps(s[..|s| - 1]);
    }
  }

  /** Whatever the text, its slug has the shape of one: it ends in a hyphen only when it was cut. */
  lemma SlugifyGivesSlug(text: string, lower: string -> string)
    ensures IsSlug(Slugify(text, lower))
  {
    var s := Hyphenate(Trim(lower(text)));
    HyphenateIsSingle(s);
    HyphenateIsSingle(Trim(lower(text)));
    StripStartKeeps(s);
    StripEndKeeps(StripStart(s));
  }

  lemma {:induction false} HyphenateFixes(s: string)
    requires SingleHyphens(s)
    ensures Hyphenate(s) == s
    decreases s
  {
    if s != "" {
      HyphenateFixes(s[1..]);
      assert s == [s[0]] + s[1..];
      if s[0] == '-' && |s| > 1 {
        assert s[1] != '-';
      }
    }
  }

  /** The slug of a slug is the slug itself exactly when it does not end in a hyphen, that is, was not cut after one. */
  lemma SlugOfSlugIff(slug: string, lower: string -> string)
    requires IsSlug(slug) && lower(slug) == slug
    ensures Slugify(slug, lower) == slug <==> slug == "" || slug[|slug| - 1] != '-'
  {
    TrimTrims(slug);
    assert Trim(slug) == slug;
    HyphenateFixes(slug);
    assert Slugify(slug, lower) == Cut(StripEnd(StripStart(slug)));
    hide Hyphenate, Trim;
    if slug != "" && slug[|slug| - 1] == '-' {
      StripEndKeeps(slug);
    }
  }

  // ---------- what a slug says

  predicate IsWord(s: string) {
    s != "" && forall i :: 0 <= i < |s| ==> IsSlugChar(s[i])
  }

  /** No character of it can stand in a slug. */
  predicate IsGap(s: string) {
    forall i :: 0 <= i < |s| ==> !IsSlugChar(s[i])
  }

  /** Words, each followed by a gap. */
  function Spelled(words: seq<string>, gaps: seq<string>): string
    requires |gaps| == |words|
  {
    if words == [] then "" else words[0] + gaps[0] + Spelled(words[1..], gaps[1..])
  }

  /** The gaps are gaps, and only the last one may be empty. */
  predicate AreWords(words: seq<string>, gaps: seq<string>) {
    && |gaps| == |words|
    && (forall i :: 0 <= i < |words| ==> IsWord(words[i]) && IsGap(gaps[i]))
    && (forall i :: 0 <= i < |words| - 1 ==> gaps[i] != "")
  }

  function Hyphenated(words: seq<string>): string {
    if words == [] then "" else if |words| == 1 then words[0] else words[0] + "-" + Hyphenated(words[1..])
  }

  lemma {:induction false} HyphenateWord(word: string, rest: string)
    requires forall i :: 0 <= i < |word| ==> IsSlugChar(word[i])
    ensures Hyphenate(word + rest) == word + Hyphenate(rest)
    decreases word
  {
    if word == "" {
      assert word + rest == rest;
    } else {
      assert (word + rest)[1..] == word[1..] + rest;
      HyphenateWord(word[1..], rest);
    }
  }

  lemma {:induction false} HyphenateGap(gap: string, rest: string)
    requires gap != "" && IsGap(gap) && (rest == "" || IsSlugChar(rest[0]))
    ensures Hyphenate(gap + rest) == "-" + Hyphenate(rest)
    decreases gap
  {
    assert (gap + rest)[1..] == gap[1..] + rest;
    if |gap| > 1 {
      assert (gap + rest)[1] == gap[1];
      HyphenateGap(gap[1..], rest);
    } else {
      assert gap[1..] + rest == rest;
    }
  }

  lemma TailWords(words: seq<string>, gaps: seq<string>)
    requires AreWords(words, gaps) && words != []
    ensures AreWords(words[1..], gaps[1..])
    ensures |words| > 1 ==> Spelled(words[1..], gaps[1..]) != "" && IsSlugChar(Spelled(words[1..], gaps[1..])[0])
  {
  }

  /** Words keep their letters, and every gap becomes one hyphen. */
  lemma {:induction false} HyphenateSpelled(words: seq<string>, gaps: seq<string>)
    requires AreWords(words, gaps)
    ensures Hyphenate(Spelled(words, gaps))
         == Hyphenated(words) + if words == [] || gaps[|words| - 1] == "" then "" else "-"
    decreases words
  {
    if words != [] {
      var rest := Spelled(words[1..], gaps[1..]);
      TailWords(words, gaps);
      assert words[0] + gaps[0] + rest == words[0] + (gaps[0] + rest);
      HyphenateWord(words[0], gaps[0] + rest);
      if gaps[0] != "" {
        HyphenateGap(gaps[0], rest);
      }
      if |words| > 1 {
        HyphenateSpelled(words[1..], gaps[1..]);
      } else {
        assert rest == "" && gaps[0] + rest == gaps[0];
        assert Hyphenate("") == "";
      }
    }
  }

  lemma HyphenateLed(lead: string, words: seq<string>, gaps: seq<string>)
    requires IsGap(lead) && AreWords(words, gaps)
    ensures Hyphenate(lead + Spelled(words, gaps))
         == (if lead == "" then "" else "-") + Hyphenate(Spelled(words, gaps))
  {
    var text := Spelled(words, gaps);
    if lead == "" {
      assert lead + text == text;
    } else {
      assert text == "" || IsSlugChar(text[0]);
      HyphenateGap(lead, text);
    }
  }

  /** Hyphenated words begin and end with letters of a slug. */
  lemma {:induction false} HyphenatedEnds(words: seq<string>)
    requires words != [] && forall i :: 0 <= i < |words| ==> IsWord(words[i])
    ensures var s := Hyphenated(words); s != "" && s[0] != '-' && s[|s| - 1] != '-'
    decreases words
  {
    if |words| > 1 {
      HyphenatedEnds(words[1..]);
    }
  }

  lemma Strip(lead: string, s: string, trail: string)
    requires lead == "" || lead == "-"
    requires trail == "" || trail == "-"
    requires s == "" || (s[0] != '-' && s[|s| - 1] != '-')
    requires s == "" ==> trail == ""
    ensures StripEnd(StripStart(lead + s + trail)) == s
  {
    if s == "" {
      assert lead + s + trail == lead;
      assert lead == "-" ==> lead[1..] == "";
    } else {
      var t := s + trail;
      assert lead + s + trail == lead + t;
      assert StripStart(t) == t;
      if lead == "-" {
        assert ("-" + t)[1..] == t;
      } else {
        assert lead + t == t;
      }
      if trail == "-" {
        assert t[..|t| - 1] == s;
      } else {
        assert t == s;
      }
    }
  }

  /** Every text is a gap, possibly empty, followed by words with gaps after them. */
  lemma {:induction false} WordsOf(text: string) returns (lead: string, words: seq<string>, gaps: seq<string>)
    ensures IsGap(lead) && AreWords(words, gaps) && text == lead + Spelled(words, gaps)
    decreases text
  {
    if text == "" {
      lead, words, gaps := "", [], [];
    } else {
      var c := text[0];
      lead, words, gaps := WordsOf(text[1..]);
      var rest := Spelled(words, gaps);
      assert text == [c] + (lead + rest);
      if !IsSlugChar(c) {
        lead := [c] + lead;
      } else if lead == "" && words != [] {
        TailWords(words, gaps);
        var tail := Spelled(words[1..], gaps[1..]);
        var longer := [[c] + words[0]] + words[1..];
        assert longer[1..] == words[1..];
        assert Spelled(longer, gaps) == [c] + words[0] + gaps[0] + tail;
        words := longer;
      } else {
        var more, after := [[c]] + words, [lead] + gaps;
        assert more[1..] == words && after[1..] == gaps;
        assert Spelled(more, after) == [c] + lead + rest;
        words, gaps, lead := more, after, "";
      }
    }
  }

  /** White space is no letter of a slug, so trimming leaves the words of a text as they are. */
  lemma SpacesAreGaps(s: string)
    requires AllSpaces(s)
    ensures IsGap(s)
  {
  }

  /** A gap added at the end widens the last gap only. */
  lemma {:induction false} WidenLast(words: seq<string>, gaps: seq<string>, gap: string) returns (wider: seq<string>)
    requires AreWords(words, gaps) && words != [] && IsGap(gap)
    ensures AreWords(words, wider) && Spelled(words, wider) == Spelled(words, gaps) + gap
    decreases words
  {
    if |words| == 1 {
      wider := [gaps[0] + gap];
      assert Spelled(words[1..], gaps[1..]) == "" && Spelled(words[1..], wider[1..]) == "";
    } else {
      TailWords(words, gaps);
      var rest := WidenLast(words[1..], gaps[1..], gap);
      wider := [gaps[0]] + rest;
      assert wider[1..] == rest;
      assert words[0] + gaps[0] + (Spelled(words[1..], gaps[1..]) + gap) == Spelled(words, gaps) + gap;
    }
  }

  /**
   The slug of a text: its runs of letters a-z and digits, lower-cased, in order and joined by single
   hyphens, cut at 80. Whatever else the text holds only separates them.
   */
  lemma SlugJoinsWords(text: string, lower: string -> string)
    returns (lead: string, words: seq<string>, gaps: seq<string>)
    ensures IsGap(lead) && AreWords(words, gaps) && lower(text) == lead + Spelled(words, gaps)
    ensures var joined := Hyphenated(words);
            Slugify(text, lower) == if |joined| <= 80 then joined else joined[..80]
  {
    var trimmed := Trim(lower(text));
    var before, after := TrimOnlyDropsSpaces(lower(text));
    SpacesAreGaps(before);
    SpacesAreGaps(after);
    lead, words, gaps := WordsOf(trimmed);
    SlugOfWords(lead, words, gaps);
    lead, gaps := Widened(before, lead, words, gaps, after);
    hide *;
  }

  lemma Widened(before: string, lead: string, words: seq<string>, gaps: seq<string>, after: string)
    returns (lead': string, gaps': seq<string>)
    requires IsGap(before) && IsGap(lead) && IsGap(after) && AreWords(words, gaps)
    ensures IsGap(lead') && AreWords(words, gaps')
    ensures before + (lead + Spelled(words, gaps)) + after == lead' + Spelled(words, gaps')
  {
    if words == [] {
      lead', gaps' := before + lead + after, gaps;
      assert Spelled(words, gaps) == "";
    } else {
      gaps' := WidenLast(words, gaps, after);
      lead' := before + lead;
      hide AreWords, Spelled;
    }
  }

  lemma SlugOfWords(lead: string, words: seq<string>, gaps: seq<string>)
    requires IsGap(lead) && AreWords(words, gaps)
    ensures StripEnd(StripStart(Hyphenate(lead + Spelled(words, gaps)))) == Hyphenated(words)
  {
    var first := if lead == "" then "" else "-";
    var last := if words == [] || gaps[|words| - 1] == "" then "" else "-";
    HyphenateLed(lead, words, gaps);
    HyphenateSpelled(words, gaps);
    if words != [] {
      HyphenatedEnds(words);
    }
    assert first + (Hyphenated(words) + last) == first + Hyphenated(words) + last;
    Strip(first, Hyphenated(words), last);
  }

  // ---------- unique slugs

  /** The candidates in turn: the slug, then the slug with suffix 1, 2, and so on. */
  function Candidate(slug: string, n: nat): string {
    if n == 0 then slug else slug + "-" + Dec(n)
  }

  lemma CandidatesDiffer(slug: string, a: nat, b: nat)
    requires Candidate(slug, a) == Candidate(slug, b)
    ensures a == b
  {
    var n := |slug| + 1;
    if a > 0 && b > 0 {
      assert Candidate(slug, a)[n..] == Dec(a) && Candidate(slug, b)[n..] == Dec(b);
      DecIsInjective(a, b);
    }
  }

  function Tried(slug: string, n: nat): set<string> {
    set k | 0 <= k < n :: Candidate(slug, k)
  }

  lemma {:induction false} TriedCount(slug: string, n: nat)
    ensures |Tried(slug, n)| == n
  {
    if n > 0 {
      TriedCount(slug, n - 1);
      assert Tried(slug, n) == Tried(slug, n - 1) + {Candidate(slug, n - 1)};
      if Candidate(slug, n - 1) in Tried(slug, n - 1) {
        var k :| 0 <= k < n - 1 && Candidate(slug, k) == Candidate(slug, n - 1);
        CandidatesDiffer(slug, k, n - 1);
      }
    }
  }

  lemma SubsetSize(a: set<string>, b: set<string>)
    requires a <= b
    ensures |a| <= |b|
  {
    assert b == a + (b - a);
  }

  /**
   Probes the slug, then the slug with "-1", "-2" and so on, until one is free. Against any finite set of
   taken slugs it stops after at most one probe more than the set has elements, at the first free one.
   */
  method UniqueSlug(base: string, lower: string -> string, taken: set<string>) returns (candidate: string, ghost n: nat)
    ensures candidate !in taken && n <= |taken|
    ensures var slug := if Slugify(base, lower) == "" then "item" else Slugify(base, lower);
            && (n == 0 ==> candidate == slug)
            && (n > 0 ==> candidate == slug + "-" + Dec(n) && slug in taken)
            && forall k: nat :: 0 < k < n ==> slug + "-" + Dec(k) in taken
  {
    var slug := Slugify(base, lower);
    if slug == "" {
      slug := "item";
    }
    candidate := slug;
    var i := 1;
    n := 0;
    while candidate in taken
      invariant i == n + 1 && candidate == Candidate(slug, n)
      invariant forall k :: 0 <= k < n ==> Candidate(slug, k) in taken
      invariant n <= |taken|
      decreases |taken| - n
    {
      TriedCount(slug, n + 1);
      SubsetSize(Tried(slug, n + 1), taken);
      candidate := slug + "-" + Dec(i);
      n := n + 1;
      i := i + 1;
    }
    assert forall k: nat :: 0 < k < n ==> slug + "-" + Dec(k) == Candidate(slug, k);
    assert n > 0 ==> Candidate(slug, 0) in taken;
  }
}
