/**
 The string functions of Go's standard library that the modelled code relies on. A char is a byte,
 except where ToLower and Fields are used: there it is a rune, as in Go, and one rune maps to one.
 Separators, quotes and punctuation are ASCII, for which both readings give the same parts.
 */
module Text {

  /** strings.Split with a one-byte separator. */
  function Split(s: string, sep: char): (parts: seq<string>)
    ensures parts != []
  {
    if s == "" then [""]
    else
      var rest := Split(s[1..], sep);
      if s[0] == sep then [""] + rest else [[s[0]] + rest[0]] + rest[1..]
  }

  /** strings.Join. */
  function Join(parts: seq<string>, sep: string): string {
    if parts == [] then ""
    else if |parts| == 1 then parts[0]
    else parts[0] + sep + Join(parts[1..], sep)
  }

  lemma JoinCons(c: char, parts: seq<string>, sep: string)
    requires parts != []
    ensures Join([[c] + parts[0]] + parts[1..], sep) == [c] + Join(parts, sep)
  {
    var longer := [[c] + parts[0]] + parts[1..];
    assert longer[1..] == parts[1..];
    if |parts| > 1 {
      assert [c] + (parts[0] + sep + Join(parts[1..], sep)) == [c] + parts[0] + sep + Join(parts[1..], sep);
    }
  }

  /** Joining the parts of a split gives the string back, and no part contains the separator. */
  lemma {:induction false} JoinOfSplit(s: string, sep: char)
    ensures Join(Split(s, sep), [sep]) == s
    ensures forall p :: p in Split(s, sep) ==> sep !in p
  {
    if s != "" {
      JoinOfSplit(s[1..], sep);
      var rest := Split(s[1..], sep);
      assert s == [s[0]] + s[1..];
      if s[0] == sep {
        assert ([""] + rest)[1..] == rest;
        assert Join([""] + rest, [sep]) == "" + [sep] + Join(rest, [sep]);
      } else {
        JoinCons(s[0], rest, [sep]);
        assert forall p :: p in rest[1..] ==> p in rest;
        assert rest[0] in rest;
      }
    }
  }

  lemma {:induction false} SplitOfPart(p: string, sep: char)
    requires sep !in p
    ensures Split(p, sep) == [p]
  {
    if p != "" {
      SplitOfPart(p[1..], sep);
      assert p == [p[0]] + p[1..];
    }
  }

  lemma {:induction false} SplitAtSeparator(p: string, sep: char, rest: string)
    requires sep !in p
    ensures Split(p + [sep] + rest, sep) == [p] + Split(rest, sep)
  {
    var s := p + [sep] + rest;
    if p == "" {
      assert s[1..] == rest;
    } else {
      assert s[1..] == p[1..] + [sep] + rest;
      SplitAtSeparator(p[1..], sep, rest);
      var tail := Split(s[1..], sep);
      assert tail[1..] == Split(rest, sep);
      assert p == [p[0]] + p[1..];
    }
  }

  /** Splitting joined parts gives the parts back if none contains the separator. */
  lemma {:induction false} SplitOfJoin(parts: seq<string>, sep: char)
    requires parts != [] && forall p :: p in parts ==> sep !in p
    ensures Split(Join(parts, [sep]), sep) == parts
  {
    assert parts[0] in parts;
    if |parts| == 1 {
      SplitOfPart(parts[0], sep);
    } else {
      forall p | p in parts[1..] ensures sep !in p { assert p in parts; }
      SplitOfJoin(parts[1..], sep);
      SplitAtSeparator(parts[0], sep, Join(parts[1..], [sep]));
      assert parts == [parts[0]] + parts[1..];
    }
  }

  /** A string splits into one part more than it has separators. */
  lemma {:induction false} SplitCounts(s: string, sep: char)
    ensures |Split(s, sep)| == multiset(s)[sep] + 1
  {
    if s != "" {
      SplitCounts(s[1..], sep);
      assert s == [s[0]] + s[1..];
    }
  }

  /** The first separator of a string is at a definite place. */
  lemma FirstSeparatorIsUnique(a: string, x: string, b: string, y: string, sep: char)
    requires sep !in a && sep !in b
    ensures a + [sep] + x == b + [sep] + y <==> a == b && x == y
  {
    var s, t := a + [sep] + x, b + [sep] + y;
    assert s[|a|] == sep && forall i :: 0 <= i < |a| ==> s[i] != sep;
    assert t[|b|] == sep && forall i :: 0 <= i < |b| ==> t[i] != sep;
    if s == t {
      assert |a| == |b|;
      assert a == s[..|a|] && b == t[..|b|] && x == s[|a| + 1..] && y == t[|b| + 1..];
    }
  }

  // ----- sort.Strings -----

  predicate LexLe(a: string, b: string) {
    a == "" || (b != "" && (a[0] < b[0] || (a[0] == b[0] && LexLe(a[1..], b[1..]))))
  }

  /** The order of Go's strings: a prefix comes first, else the first difference decides. */
  lemma {:induction false} LexLeIff(a: string, b: string)
    ensures LexLe(a, b) <==> a <= b || exists i :: FirstDifference(a, b, i) && a[i] < b[i]
  {
    if a != "" && b != "" {
      if a[0] != b[0] {
        assert FirstDifference(a, b, 0);
      } else {
        LexLeIff(a[1..], b[1..]);
        DifferenceAfterHead(a, b);
      }
    }
  }

  ghost predicate FirstDifference(a: string, b: string, i: int) {
    0 <= i < |a| && i < |b| && a[i] != b[i] && forall j :: 0 <= j < i ==> a[j] == b[j]
  }

  lemma DifferenceAfterHead(a: string, b: string)
    requires a != "" && b != "" && a[0] == b[0]
    ensures a <= b <==> a[1..] <= b[1..]
    ensures forall i :: FirstDifference(a, b, i) <==> FirstDifference(a[1..], b[1..], i - 1)
  {
    assert a == [a[0]] + a[1..] && b == [b[0]] + b[1..];
  }

  lemma {:induction false} LexTotal(a: string, b: string)
    ensures LexLe(a, b) || LexLe(b, a)
    ensures LexLe(a, b) && LexLe(b, a) ==> a == b
  {
    if a != "" && b != "" {
      LexTotal(a[1..], b[1..]);
      assert a == [a[0]] + a[1..] && b == [b[0]] + b[1..];
    }
  }

  lemma {:induction false} LexTransitive(a: string, b: string, c: string)
    requires LexLe(a, b) && LexLe(b, c)
    ensures LexLe(a, c)
  {
    if a != "" && a[0] == b[0] == c[0] { LexTransitive(a[1..], b[1..], c[1..]); }
  }

  function Insert(s: seq<string>, x: string): seq<string> {
    if s == [] || LexLe(x, s[0]) then [x] + s else [s[0]] + Insert(s[1..], x)
  }

  function Sorted(s: seq<string>): seq<string> {
    if s == [] then [] else Insert(Sorted(s[1..]), s[0])
  }

  /** Ascending order, stated with the head below everything so that it unfolds like a list. */
  ghost predicate Ascending(s: seq<string>) {
    s == [] || ((forall x :: x in s ==> LexLe(s[0], x)) && Ascending(s[1..]))
  }

  lemma {:induction false} InsertAdds(s: seq<string>, x: string)
    ensures multiset(Insert(s, x)) == multiset(s) + multiset{x}
  {
    if s != [] {
      InsertAdds(s[1..], x);
      assert s == [s[0]] + s[1..];
    }
  }

  lemma InsertElements(s: seq<string>, x: string, y: string)
    ensures y in Insert(s, x) <==> y in s || y == x
  {
    InsertAdds(s, x);
    assert y in Insert(s, x) <==> y in multiset(Insert(s, x));
    assert y in s <==> y in multiset(s);
  }

  lemma {:induction false} InsertSorts(s: seq<string>, x: string)
    requires Ascending(s)
    ensures Ascending(Insert(s, x)) && multiset(Insert(s, x)) == multiset(s) + multiset{x}
    ensures forall y :: y in Insert(s, x) <==> y in s || y == x
  {
    InsertAdds(s, x);
    forall y ensures y in Insert(s, x) <==> y in s || y == x { InsertElements(s, x, y); }
    InsertKeepsOrder(s, x);
  }

  lemma {:induction false} InsertKeepsOrder(s: seq<string>, x: string)
    requires Ascending(s)
    ensures Ascending(Insert(s, x))
  {
    LexTotal(x, x);
    if s == [] {
    } else if LexLe(x, s[0]) {
      assert ([x] + s)[1..] == s;
      forall y | y in s ensures LexLe(x, y) { LexTransitive(x, s[0], y); }
    } else {
      LexTotal(x, s[0]);
      InsertKeepsOrder(s[1..], x);
      assert Insert(s, x)[1..] == Insert(s[1..], x);
      forall y | y in Insert(s[1..], x) ensures LexLe(s[0], y) { InsertElements(s[1..], x, y); }
    }
  }

  lemma {:induction false} SortedSorts(s: seq<string>)
    ensures Ascending(Sorted(s)) && multiset(Sorted(s)) == multiset(s)
    ensures forall x :: x in Sorted(s) <==> x in s
  {
    if s != [] {
      SortedSorts(s[1..]);
      InsertSorts(Sorted(s[1..]), s[0]);
      assert s == [s[0]] + s[1..];
    }
  }

  lemma SmallestComesFirst(s: seq<string>, t: seq<string>)
    requires Ascending(s) && Ascending(t) && multiset(s) == multiset(t) && s != []
    ensures t != [] && s[0] == t[0]
  {
    assert |multiset(s)| == |s| && |multiset(t)| == |t|;
    assert s[0] in multiset(s) && t[0] in multiset(t);
    assert s[0] in t && t[0] in s;
    LexTotal(s[0], t[0]);
  }

  /** Ascending sequences with the same elements are equal, so any correct sort gives this result. */
  lemma {:induction false} AscendingIsUnique(s: seq<string>, t: seq<string>)
    requires Ascending(s) && Ascending(t) && multiset(s) == multiset(t)
    ensures s == t
  {
    assert |multiset(s)| == |s| && |multiset(t)| == |t|;
    if s != [] {
      SmallestComesFirst(s, t);
      assert s == [s[0]] + s[1..] && t == [t[0]] + t[1..];
      assert multiset(s[1..]) == multiset(s) - multiset{s[0]};
      assert multiset(t[1..]) == multiset(t) - multiset{t[0]};
      AscendingIsUnique(s[1..], t[1..]);
    }
  }

  // ----- trimming, fields and case -----

  /** Unicode's tables of lower-case forms and white space. */
  datatype CharTables = CharTables(lower: char -> char, space: char -> bool)

  function TrimLeft(s: string, cut: char -> bool): string {
    if s != "" && cut(s[0]) then TrimLeft(s[1..], cut) else s
  }

  function TrimRight(s: string, cut: char -> bool): string {
    if s != "" && cut(s[|s| - 1]) then TrimRight(s[..|s| - 1], cut) else s
  }

  /** strings.Trim with the cutset given as a predicate; strings.TrimSpace for the space predicate. */
  function Trim(s: string, cut: char -> bool): string { TrimRight(TrimLeft(s, cut), cut) }

  ghost predicate All(s: string, p: char -> bool) { forall i :: 0 <= i < |s| ==> p(s[i]) }

  /** t is s without some outer characters of the cutset, and none is left to cut. */
  ghost predicate IsTrimmed(s: string, cut: char -> bool, a: string, t: string, b: string) {
    s == a + t + b && All(a, cut) && All(b, cut) && (t != "" ==> !cut(t[0]) && !cut(t[|t| - 1]))
  }

  lemma {:induction false} TrimLeftCuts(s: string, cut: char -> bool) returns (a: string)
    ensures s == a + TrimLeft(s, cut) && All(a, cut)
    ensures TrimLeft(s, cut) != "" ==> !cut(TrimLeft(s, cut)[0])
  {
    a := "";
    if s != "" && cut(s[0]) {
      var rest := TrimLeftCuts(s[1..], cut);
      a := [s[0]] + rest;
      assert s == [s[0]] + s[1..];
    }
  }

  lemma {:induction false} TrimRightCuts(s: string, cut: char -> bool) returns (b: string)
    ensures s == TrimRight(s, cut) + b && All(b, cut)
    ensures TrimRight(s, cut) != "" ==> !cut(TrimRight(s, cut)[|TrimRight(s, cut)| - 1]) && TrimRight(s, cut)[0] == s[0]
  {
    b := "";
    if s != "" && cut(s[|s| - 1]) {
      var rest := TrimRightCuts(s[..|s| - 1], cut);
      b := rest + [s[|s| - 1]];
      assert s == s[..|s| - 1] + [s[|s| - 1]];
    }
  }

  /** Trimming removes outer characters of the cutset only, and all of them. */
  lemma TrimCuts(s: string, cut: char -> bool) returns (a: string, b: string)
    ensures IsTrimmed(s, cut, a, Trim(s, cut), b)
  {
    a := TrimLeftCuts(s, cut);
    b := TrimRightCuts(TrimLeft(s, cut), cut);
  }

  /** Places first and last with no character of the cutset, and none without it outside them. */
  ghost predicate Outermost(s: string, cut: char -> bool, first: nat, last: nat) {
    && first <= last < |s| && !cut(s[first]) && !cut(s[last])
    && (forall k :: 0 <= k < first ==> cut(s[k]))
    && (forall k :: last < k < |s| ==> cut(s[k]))
  }

  lemma OutermostOfTrimmed(s: string, cut: char -> bool, a: string, t: string, b: string)
    requires IsTrimmed(s, cut, a, t, b) && t != ""
    ensures Outermost(s, cut, |a|, |a + t| - 1) && t == s[|a|..|a + t|]
  {
    assert forall k :: 0 <= k < |a| ==> s[k] == a[k];
    assert forall k :: |a + t| <= k < |s| ==> s[k] == b[k - |a + t|];
    assert s[|a|] == t[0] && s[|a + t| - 1] == t[|t| - 1];
  }

  lemma OutermostIsUnique(s: string, cut: char -> bool, first: nat, last: nat, first': nat, last': nat)
    requires Outermost(s, cut, first, last) && Outermost(s, cut, first', last')
    ensures first == first' && last == last'
  {
  }

  /** Nothing else is what trimming gives. */
  lemma TrimIsUnique(s: string, cut: char -> bool, a: string, t: string, b: string)
    requires IsTrimmed(s, cut, a, t, b)
    ensures Trim(s, cut) == t
  {
    var a', b' := TrimCuts(s, cut);
    var t' := Trim(s, cut);
    if t == "" {
      NothingBetween(s, cut, a, b, a', t', b');
    } else if t' == "" {
      NothingBetween(s, cut, a', b', a, t, b);
    } else {
      OutermostOfTrimmed(s, cut, a, t, b);
      OutermostOfTrimmed(s, cut, a', t', b');
      OutermostIsUnique(s, cut, |a|, |a + t| - 1, |a'|, |a' + t'| - 1);
    }
  }

  lemma NothingBetween(s: string, cut: char -> bool, a: string, b: string, a': string, t': string, b': string)
    requires s == a + b && All(a, cut) && All(b, cut) && s == a' + t' + b'
    ensures t' != "" ==> cut(t'[0])
  {
    assert All(s, cut);
    assert t' != "" ==> s[|a'|] == t'[0];
  }

  /** The longest prefix without a space. */
  function Word(s: string, space: char -> bool): (w: string)
    ensures |w| <= |s| && (s != "" && !space(s[0]) ==> w != "")
  {
    if s == "" || space(s[0]) then "" else [s[0]] + Word(s[1..], space)
  }

  /** strings.Fields. */
  function Fields(s: string, space: char -> bool): seq<string>
    decreases |s|
  {
    if s == "" then []
    else if space(s[0]) then Fields(s[1..], space)
    else [Word(s, space)] + Fields(s[|Word(s, space)|..], space)
  }

  lemma {:induction false} WordHasNoSpace(s: string, space: char -> bool)
    ensures forall c :: c in Word(s, space) ==> !space(c)
  {
    if s != "" && !space(s[0]) { WordHasNoSpace(s[1..], space); }
  }

  /** Fields are not empty and contain no space. */
  lemma {:induction false} FieldsAreWords(s: string, space: char -> bool)
    ensures forall w :: w in Fields(s, space) ==> w != "" && forall c :: c in w ==> !space(c)
    decreases |s|
  {
    if s != "" {
      if space(s[0]) {
        FieldsAreWords(s[1..], space);
      } else {
        WordHasNoSpace(s, space);
        FieldsAreWords(s[|Word(s, space)|..], space);
      }
    }
  }

  /** Words with gaps before, between and after them. */
  function Weave(gaps: seq<string>, words: seq<string>): string
    requires |gaps| == |words| + 1
  {
    if words == [] then gaps[0] else gaps[0] + words[0] + Weave(gaps[1..], words[1..])
  }

  ghost predicate IsWord(w: string, space: char -> bool) { w != "" && All(w, (c: char) => !space(c)) }

  /** s is these words, separated by white space: they are its maximal runs without a space, in order. */
  ghost predicate IsWoven(s: string, space: char -> bool, gaps: seq<string>, words: seq<string>) {
    && |gaps| == |words| + 1 && s == Weave(gaps, words)
    && (forall i :: 0 <= i < |words| ==> IsWord(words[i], space))
    && (forall i :: 0 <= i < |gaps| ==> All(gaps[i], space))
    && (forall i :: 0 < i < |words| ==> gaps[i] != "")
  }

  lemma {:induction false} SpacesAreSkipped(g: string, s: string, space: char -> bool)
    requires All(g, space)
    ensures Fields(g + s, space) == Fields(s, space)
  {
    if g == "" {
      assert g + s == s;
    } else {
      assert (g + s)[1..] == g[1..] + s;
      SpacesAreSkipped(g[1..], s, space);
    }
  }

  lemma {:induction false} WordEnds(w: string, s: string, space: char -> bool)
    requires All(w, (c: char) => !space(c)) && (s != "" ==> space(s[0]))
    ensures Word(w + s, space) == w
  {
    if w == "" {
      assert w + s == s;
    } else {
      assert (w + s)[1..] == w[1..] + s;
      WordEnds(w[1..], s, space);
      assert w == [w[0]] + w[1..];
    }
  }

  /** Fields are exactly the words s is woven from. */
  lemma {:induction false} FieldsOfWoven(s: string, space: char -> bool, gaps: seq<string>, words: seq<string>)
    requires IsWoven(s, space, gaps, words)
    ensures Fields(s, space) == words
    decreases |words|
  {
    if words == [] {
      SpacesAreSkipped(s, "", space);
      assert s + "" == s;
    } else {
      var (w, rest) := (words[0], Weave(gaps[1..], words[1..]));
      assert IsWord(w, space);
      assert s == gaps[0] + (w + rest);
      SpacesAreSkipped(gaps[0], w + rest, space);
      assert rest != "" ==> space(rest[0]) by { GapComesFirst(space, gaps[1..], words[1..]); }
      WordEnds(w, rest, space);
      assert (w + rest)[|w|..] == rest && !space((w + rest)[0]);
      FieldsOfWoven(rest, space, gaps[1..], words[1..]);
    }
  }

  lemma GapComesFirst(space: char -> bool, gaps: seq<string>, words: seq<string>)
    requires |gaps| == |words| + 1 && All(gaps[0], space) && (words != [] ==> gaps[0] != "")
    ensures Weave(gaps, words) != "" ==> space(Weave(gaps, words)[0])
  {
  }

  lemma {:induction false} WordIsLongest(s: string, space: char -> bool)
    requires s != "" && !space(s[0])
    ensures IsWord(Word(s, space), space) && Word(s, space) == s[..|Word(s, space)|]
    ensures |Word(s, space)| < |s| ==> space(s[|Word(s, space)|])
  {
    WordHasNoSpace(s, space);
    WordIsPrefix(s, space);
  }

  lemma {:induction false} WordIsPrefix(s: string, space: char -> bool)
    ensures Word(s, space) == s[..|Word(s, space)|]
    ensures |Word(s, space)| < |s| ==> space(s[|Word(s, space)|])
  {
    if s != "" && !space(s[0]) {
      WordIsPrefix(s[1..], space);
      assert s == [s[0]] + s[1..];
    }
  }

  lemma MoreGap(c: char, s: string, space: char -> bool, gaps: seq<string>, words: seq<string>)
    requires space(c) && IsWoven(s, space, gaps, words)
    ensures IsWoven([c] + s, space, [[c] + gaps[0]] + gaps[1..], words)
  {
    var longer := [[c] + gaps[0]] + gaps[1..];
    assert longer[1..] == gaps[1..];
    if words != [] {
      assert [c] + (gaps[0] + words[0] + Weave(gaps[1..], words[1..])) ==
             [c] + gaps[0] + words[0] + Weave(gaps[1..], words[1..]);
    }
  }

  lemma MoreWord(w: string, s: string, space: char -> bool, gaps: seq<string>, words: seq<string>)
    requires IsWord(w, space) && IsWoven(s, space, gaps, words) && (words != [] ==> gaps[0] != "")
    ensures IsWoven(w + s, space, [""] + gaps, [w] + words)
  {
    assert ([""] + gaps)[1..] == gaps && ([w] + words)[1..] == words;
    assert "" + w + s == w + s;
  }

  /** And every string is woven from its fields. */
  lemma {:induction false} WovenFromFields(s: string, space: char -> bool) returns (gaps: seq<string>)
    ensures IsWoven(s, space, gaps, Fields(s, space))
    ensures s != "" && space(s[0]) ==> gaps[0] != ""
    decreases |s|
  {
    if s == "" {
      gaps := [""];
    } else if space(s[0]) {
      gaps := WovenFromFields(s[1..], space);
      MoreGap(s[0], s[1..], space, gaps, Fields(s, space));
      gaps := [[s[0]] + gaps[0]] + gaps[1..];
      assert s == [s[0]] + s[1..];
    } else {
      var w := Word(s, space);
      WordIsLongest(s, space);
      gaps := WovenFromFields(s[|w|..], space);
      MoreWord(w, s[|w|..], space, gaps, Fields(s[|w|..], space));
      gaps := [""] + gaps;
      assert s == w + s[|w|..];
    }
  }

  /** strings.ToLower, one character at a time. */
  function ToLower(s: string, lower: char -> char): (t: string)
    ensures |t| == |s| && forall i :: 0 <= i < |s| ==> t[i] == lower(s[i])
  {
    seq(|s|, i requires 0 <= i < |s| => lower(s[i]))
  }

  predicate HasPrefix(s: string, prefix: string) { |prefix| <= |s| && s[..|prefix|] == prefix }
}
