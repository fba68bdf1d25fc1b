/**
 The response cache key (pkg/proxy/cache.go): method, path and sorted query parameters, hashed.
 The hash with its hex formatting is a parameter; only its injectivity is ever assumed.
 */
module CacheKey {
  import opened Text

  /** The string that is hashed. */
  function Canonical(method_: string, path: string, rawQuery: string): string {
    method_ + ":" + path + Suffix(rawQuery)
  }

  function Suffix(rawQuery: string): string {
    if rawQuery == "" then "" else "?" + Join(Sorted(Split(rawQuery, '&')), "&")
  }

  function Key<K>(hash: string -> K, method_: string, path: string, rawQuery: string): K {
    hash(Canonical(method_, path, rawQuery))
  }

  ghost predicate Injective<K(!new)>(hash: string -> K) {
    forall s, t :: hash(s) == hash(t) ==> s == t
  }

  /** The '&'-separated parameters, without their order. */
  ghost function Parameters(rawQuery: string): multiset<string> { multiset(Split(rawQuery, '&')) }

  lemma EmptyQueryIsAlone(q: string)
    ensures Parameters(q) == Parameters("") <==> q == ""
  {
    var parts := Split(q, '&');
    assert Split("", '&') == [""];
    JoinOfSplit(q, '&');
    if multiset(parts) == multiset([""]) {
      assert |multiset(parts)| == |parts| && |multiset([""])| == 1;
      assert parts[0] in multiset(parts);
      assert parts == [""];
    }
  }

  /** The sorted query is the one ascending listing of the parameters. */
  lemma SortedQueryIff(q: string, text: string)
    ensures Join(Sorted(Split(q, '&')), "&") == text <==> Ascending(Split(text, '&')) && Parameters(text) == Parameters(q)
  {
    var parts := Split(q, '&');
    JoinOfSplit(q, '&');
    JoinOfSplit(text, '&');
    SortedSorts(parts);
    assert |multiset(Sorted(parts))| == |Sorted(parts)| && |multiset(parts)| == |parts|;
    SplitOfJoin(Sorted(parts), '&');
    if Ascending(Split(text, '&')) && Parameters(text) == Parameters(q) {
      AscendingIsUnique(Sorted(parts), Split(text, '&'));
    }
  }

  /** The sorted query determines the parameters and is determined by them. */
  lemma SortedQueryIsCanonical(q1: string, q2: string)
    ensures Join(Sorted(Split(q1, '&')), "&") == Join(Sorted(Split(q2, '&')), "&") <==> Parameters(q1) == Parameters(q2)
  {
    SortedQueryIff(q1, Join(Sorted(Split(q2, '&')), "&"));
    SortedQueryIff(q2, Join(Sorted(Split(q2, '&')), "&"));
  }

  lemma SuffixIsCanonical(q1: string, q2: string)
    ensures Suffix(q1) == Suffix(q2) <==> Parameters(q1) == Parameters(q2)
  {
    EmptyQueryIsAlone(q1);
    EmptyQueryIsAlone(q2);
    SortedQueryIsCanonical(q1, q2);
    if q1 != "" && q2 != "" {
      assert Suffix(q1)[1..] == Join(Sorted(Split(q1, '&')), "&");
      assert Suffix(q2)[1..] == Join(Sorted(Split(q2, '&')), "&");
    }
  }

  // ----- when two requests share a key -----

  /**
   h2 goes on after h1 with a '?', and what follows there, together with the query q2, lists the
   parameters of q1 in ascending order.
   */
  ghost predicate HoldsQuery(h1: string, q1: string, h2: string, q2: string) {
    && q1 != "" && h1 + "?" <= h2
    && var text := h2[|h1| + 1..] + Suffix(q2);
       Ascending(Split(text, '&')) && Parameters(text) == Parameters(q1)
  }

  lemma CutHead(h1: string, s1: string, h2: string, s2: string)
    requires |h1| <= |h2|
    ensures h1 + s1 == h2 + s2 <==> h1 <= h2 && s1 == h2[|h1|..] + s2
  {
    if h1 + s1 == h2 + s2 {
      assert (h1 + s1)[..|h1|] == (h2 + s2)[..|h1|];
      assert (h1 + s1)[|h1|..] == (h2 + s2)[|h1|..];
    } else if h1 <= h2 {
      assert h2 + s2 == h1 + (h2[|h1|..] + s2);
    }
  }

  lemma ShorterHeadCollidesIff(h1: string, q1: string, h2: string, q2: string)
    requires |h1| < |h2|
    ensures h1 + Suffix(q1) == h2 + Suffix(q2) <==> HoldsQuery(h1, q1, h2, q2)
  {
    CutHead(h1, Suffix(q1), h2, Suffix(q2));
    if q1 != "" {
      var (listing, text) := (Join(Sorted(Split(q1, '&')), "&"), h2[|h1| + 1..] + Suffix(q2));
      SortedQueryIff(q1, text);
      CutHead("?", listing, h2[|h1|..], Suffix(q2));
      assert h2[|h1|..][1..] == h2[|h1| + 1..];
      QuestionMarkFollows(h1, h2);
    }
  }

  lemma QuestionMarkFollows(h1: string, h2: string)
    requires |h1| < |h2|
    ensures h1 + "?" <= h2 <==> h1 <= h2 && "?" <= h2[|h1|..]
  {
    assert "?" <= h2[|h1|..] <==> h2[|h1|] == '?';
    assert h1 + "?" <= h2 <==> h2[..|h1| + 1] == h1 + "?";
    assert h2[..|h1| + 1] == h2[..|h1|] + [h2[|h1|]];
  }

  lemma HoldingNeedsQuestionMark(h1: string, q1: string, h2: string, q2: string)
    requires HoldsQuery(h1, q1, h2, q2)
    ensures '?' in h2
  {
    assert (h1 + "?")[|h1|] == h2[|h1|];
  }

  /** Heads with their sorted queries coincide if both parts do, or if one head holds the other's query. */
  lemma HeadsCollideIff(h1: string, q1: string, h2: string, q2: string)
    ensures h1 + Suffix(q1) == h2 + Suffix(q2) <==>
              (h1 == h2 && Parameters(q1) == Parameters(q2)) || HoldsQuery(h1, q1, h2, q2) || HoldsQuery(h2, q2, h1, q1)
  {
    if |h1| < |h2| {
      ShorterHeadCollidesIff(h1, q1, h2, q2);
    } else if |h2| < |h1| {
      ShorterHeadCollidesIff(h2, q2, h1, q1);
    } else {
      SuffixIsCanonical(q1, q2);
      CutHead(h1, Suffix(q1), h2, Suffix(q2));
      assert h2[|h1|..] + Suffix(q2) == Suffix(q2);
    }
  }

  lemma KeysAreCanonical<K(!new)>(hash: string -> K, m1: string, p1: string, q1: string, m2: string, p2: string, q2: string)
    requires Injective(hash)
    ensures Key(hash, m1, p1, q1) == Key(hash, m2, p2, q2) <==> Canonical(m1, p1, q1) == Canonical(m2, p2, q2)
  {
  }

  /** For any methods and paths, the heads before the query decide with the query. */
  lemma KeyIffSameHead<K(!new)>(hash: string -> K, m1: string, p1: string, q1: string, m2: string, p2: string, q2: string)
    requires Injective(hash)
    ensures var (h1, h2) := (m1 + ":" + p1, m2 + ":" + p2);
            Key(hash, m1, p1, q1) == Key(hash, m2, p2, q2) <==>
              (h1 == h2 && Parameters(q1) == Parameters(q2)) || HoldsQuery(h1, q1, h2, q2) || HoldsQuery(h2, q2, h1, q1)
  {
    KeysAreCanonical(hash, m1, p1, q1, m2, p2, q2);
    HeadsCollideIff(m1 + ":" + p1, q1, m2 + ":" + p2, q2);
  }

  /**
   For methods without ':', two requests share a cache key exactly when the methods are equal and
   either the paths are equal and the parameters equal up to order, or one path holds the other's
   sorted query. Paths without '?' hold no query.
   */
  lemma KeyIffSameRequest<K(!new)>(hash: string -> K, m1: string, p1: string, q1: string, m2: string, p2: string, q2: string)
    requires Injective(hash) && ':' !in m1 && ':' !in m2
    ensures Key(hash, m1, p1, q1) == Key(hash, m2, p2, q2) <==>
              && m1 == m2
              && ((p1 == p2 && Parameters(q1) == Parameters(q2)) || HoldsQuery(p1, q1, p2, q2) || HoldsQuery(p2, q2, p1, q1))
    ensures '?' !in p1 ==> !HoldsQuery(p2, q2, p1, q1)
    ensures '?' !in p2 ==> !HoldsQuery(p1, q1, p2, q2)
  {
    KeysAreCanonical(hash, m1, p1, q1, m2, p2, q2);
    CanonicalIsMethodThenRest(m1, p1, q1);
    CanonicalIsMethodThenRest(m2, p2, q2);
    MethodsStandApart(m1, p1 + Suffix(q1), m2, p2 + Suffix(q2));
    HeadsCollideIff(p1, q1, p2, q2);
    if HoldsQuery(p1, q1, p2, q2) { HoldingNeedsQuestionMark(p1, q1, p2, q2); }
    if HoldsQuery(p2, q2, p1, q1) { HoldingNeedsQuestionMark(p2, q2, p1, q1); }
  }

  lemma CanonicalIsMethodThenRest(m: string, p: string, q: string)
    ensures Canonical(m, p, q) == m + ":" + (p + Suffix(q))
  {
  }

  lemma MethodsStandApart(m1: string, r1: string, m2: string, r2: string)
    requires ':' !in m1 && ':' !in m2
    ensures m1 + ":" + r1 == m2 + ":" + r2 <==> m1 == m2 && r1 == r2
  {
    FirstSeparatorIsUnique(m1, r1, m2, r2, ':');
    assert m1 + ":" + r1 == m1 + [':'] + r1 && m2 + ":" + r2 == m2 + [':'] + r2;
  }

  /** Both delimiters do collide, for every method, path and non-empty query. */
  lemma DelimitersCollide<K>(hash: string -> K, m: string, n: string, p: string, q: string)
    requires q != ""
    ensures Key(hash, m, p, q) == Key(hash, m, p + "?" + Join(Sorted(Split(q, '&')), "&"), "")
    ensures Key(hash, m + ":" + n, p, q) == Key(hash, m, n + ":" + p, q)
  {
    assert Canonical(m, p, q) == Canonical(m, p + "?" + Join(Sorted(Split(q, '&')), "&"), "");
    assert Canonical(m + ":" + n, p, q) == Canonical(m, n + ":" + p, q);
  }
}
