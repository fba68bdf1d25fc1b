/**
 The semantic prompt cache (pkg/proxy/ai.go): prompts as word-count vectors, compared by cosine
 similarity. Counts are exact integers and the test `dot / (mag1 * mag2) >= threshold` is taken in
 its squared form over the reals, so no square root is needed; the last part bounds what rounding of
 the code's own steps can change.

 Lower-casing and white space are parameters: everything below holds for any character tables.
 */
module SemanticCache {
  import opened Options
  import opened Text

  predicate Punctuation(c: char) { c in ".,!?;:()\"'" }

  type TermFreq = map<string, nat>

  function At(m: TermFreq, k: string): nat { if k in m then m[k] else 0 }

  // ----- tokenize -----

  function RawWords(text: string, tables: CharTables): seq<string> {
    Fields(ToLower(text, tables.lower), tables.space)
  }

  /** The trimmed words, with those that were only punctuation left out. */
  function Trimmed(words: seq<string>): seq<string> {
    if words == [] then []
    else
      var init, w := Trimmed(words[..|words| - 1]), Trim(words[|words| - 1], Punctuation);
      if |w| > 0 then init + [w] else init
  }

  ghost function Bag(text: string, tables: CharTables): multiset<string> {
    multiset(Trimmed(RawWords(text, tables)))
  }

  /** The positions at which a word stands once its punctuation is trimmed. */
  ghost function Positions(words: seq<string>, w: string): set<int> {
    set i | 0 <= i < |words| && Trim(words[i], Punctuation) == w
  }

  lemma OneMorePosition(words: seq<string>, w: string)
    requires words != []
    ensures var n := |words| - 1;
            |Positions(words, w)| == |Positions(words[..n], w)| + if Trim(words[n], Punctuation) == w then 1 else 0
  {
    var n := |words| - 1;
    var before := Positions(words[..n], w);
    assert forall i :: 0 <= i < n ==> words[..n][i] == words[i];
    assert Positions(words, w) == if Trim(words[n], Punctuation) == w then before + {n} else before;
  }

  lemma {:induction false} TrimmedCounts(words: seq<string>, w: string)
    ensures multiset(Trimmed(words))[w] == if w == "" then 0 else |Positions(words, w)|
  {
    if words != [] {
      TrimmedCounts(words[..|words| - 1], w);
      OneMorePosition(words, w);
    }
  }

  /** A prompt's bag holds each non-empty word as often as a lower-case field trims to it. */
  lemma BagCounts(text: string, tables: CharTables, w: string)
    ensures Bag(text, tables)[w] == if w == "" then 0 else |Positions(Fields(ToLower(text, tables.lower), tables.space), w)|
    ensures forall c :: Punctuation(c) <==> c in {'.', ',', '!', '?', ';', ':', '(', ')', '\"', '\''}
  {
    TrimmedCounts(RawWords(text, tables), w);
  }

  /** A term frequency table counts a bag of words. */
  ghost predicate Counts(tf: TermFreq, bag: multiset<string>) {
    && (forall w :: At(tf, w) == bag[w])
    && (forall w :: w in tf ==> tf[w] > 0)
  }

  lemma CountsAreUnique(a: TermFreq, b: TermFreq, bag: multiset<string>)
    requires Counts(a, bag) && Counts(b, bag)
    ensures a == b
  {
    forall w ensures w in a <==> w in b {
      assert At(a, w) == bag[w] && At(b, w) == bag[w];
    }
    forall w | w in a ensures a[w] == b[w] {
      assert At(a, w) == bag[w] && At(b, w) == bag[w];
    }
  }

  lemma CountOneMore(tf: TermFreq, bag: multiset<string>, w: string)
    requires Counts(tf, bag)
    ensures Counts(tf[w := At(tf, w) + 1], bag + multiset{w})
  {
    var more := tf[w := At(tf, w) + 1];
    forall v ensures At(more, v) == (bag + multiset{w})[v] {
      assert At(tf, v) == bag[v];
    }
  }

  method Tokenize(text: string, tables: CharTables) returns (tf: TermFreq)
    ensures Counts(tf, Bag(text, tables))
  {
    tf := map[];
    var words := RawWords(text, tables);
    for i := 0 to |words|
      invariant Counts(tf, multiset(Trimmed(words[..i])))
    {
      var w := Trim(words[i], Punctuation);
      ghost var before := Trimmed(words[..i]);
      assert Trimmed(words[..i + 1]) == if |w| > 0 then before + [w] else before by {
        assert words[..i + 1][..i] == words[..i];
      }
      if |w| > 0 {
        CountOneMore(tf, multiset(before), w);
        tf := tf[w := At(tf, w) + 1];
      }
    }
    assert words[..|words|] == words;
  }

  // ----- dot products, independent of iteration order -----

  ghost function DotOn(keys: set<string>, a: TermFreq, b: TermFreq): int {
    if keys == {} then 0
    else
      var k :| k in keys;
      At(a, k) * At(b, k) + DotOn(keys - {k}, a, b)
  }

  lemma {:induction false} DotWithout(keys: set<string>, a: TermFreq, b: TermFreq, q: string)
    requires q in keys
    ensures DotOn(keys, a, b) == At(a, q) * At(b, q) + DotOn(keys - {q}, a, b)
    decreases keys
  {
    var k :| k in keys && DotOn(keys, a, b) == At(a, k) * At(b, k) + DotOn(keys - {k}, a, b);
    if k != q {
      DotWithout(keys - {k}, a, b, q);
      DotWithout(keys - {q}, a, b, k);
      assert keys - {k} - {q} == keys - {q} - {k};
    }
  }

  lemma {:induction false} DotCommutes(keys: set<string>, a: TermFreq, b: TermFreq)
    ensures DotOn(keys, a, b) == DotOn(keys, b, a) >= 0
  {
    if keys != {} {
      var k :| k in keys;
      DotWithout(keys, a, b, k);
      DotWithout(keys, b, a, k);
      DotCommutes(keys - {k}, a, b);
      assert At(a, k) * At(b, k) == At(b, k) * At(a, k) >= 0;
    }
  }

  /** Words outside one of the tables add nothing. */
  lemma {:induction false} DotIgnoresStrangers(keys: set<string>, more: set<string>, a: TermFreq, b: TermFreq)
    requires keys !! more && forall k :: k in more ==> k !in a || k !in b
    ensures DotOn(keys + more, a, b) == DotOn(keys, a, b)
    decreases more
  {
    if more == {} {
      assert keys + more == keys;
    } else {
      var k :| k in more;
      DotWithout(keys + more, a, b, k);
      assert At(a, k) == 0 || At(b, k) == 0;
      assert keys + more - {k} == keys + (more - {k});
      DotIgnoresStrangers(keys, more - {k}, a, b);
    }
  }

  ghost function Dot(a: TermFreq, b: TermFreq): int { DotOn(a.Keys, a, b) }

  ghost function Norm2(a: TermFreq): int { Dot(a, a) }

  /** The dot product may be taken over any keys that include the common ones. */
  lemma DotOverAll(a: TermFreq, b: TermFreq, keys: set<string>)
    requires a.Keys <= keys || b.Keys <= keys
    ensures DotOn(keys, a, b) == Dot(a, b)
  {
    var all := a.Keys + keys;
    DotIgnoresStrangers(a.Keys, all - a.Keys, a, b);
    assert a.Keys + (all - a.Keys) == all;
    DotIgnoresStrangers(keys, all - keys, a, b);
    assert keys + (all - keys) == all;
  }

  /** Symmetric, although the code iterates only the first table. */
  lemma DotIsSymmetric(a: TermFreq, b: TermFreq)
    ensures Dot(a, b) == Dot(b, a) >= 0
  {
    DotOverAll(a, b, a.Keys + b.Keys);
    DotOverAll(b, a, a.Keys + b.Keys);
    DotCommutes(a.Keys + b.Keys, a, b);
  }

  /** getMagnitude before its square root. */
  method MagnitudeSquared(tf: TermFreq) returns (sum: int)
    ensures sum == Norm2(tf)
  {
    sum := 0;
    var keys := tf.Keys;
    while keys != {}
      invariant keys <= tf.Keys
      invariant sum + DotOn(keys, tf, tf) == Norm2(tf)
      decreases keys
    {
      var k :| k in keys;
      DotWithout(keys, tf, tf, k);
      sum := sum + tf[k] * tf[k];
      keys := keys - {k};
    }
  }

  /** The loop of cosineSimilarity, in any iteration order. */
  method DotProduct(tf1: TermFreq, tf2: TermFreq) returns (dot: int)
    ensures dot == Dot(tf1, tf2)
  {
    dot := 0;
    var keys := tf1.Keys;
    while keys != {}
      invariant keys <= tf1.Keys
      invariant dot + DotOn(keys, tf1, tf2) == Dot(tf1, tf2)
      decreases keys
    {
      var k :| k in keys;
      DotWithout(keys, tf1, tf2, k);
      if k in tf2 {
        dot := dot + tf1[k] * tf2[k];
      }
      keys := keys - {k};
    }
  }

  // ----- Cauchy-Schwarz -----

  /** The sum of (x a_k - y b_k)^2. */
  ghost function SquaresOn(keys: set<string>, a: TermFreq, b: TermFreq, x: int, y: int): int {
    if keys == {} then 0
    else
      var k :| k in keys;
      var d := x * At(a, k) - y * At(b, k);
      d * d + SquaresOn(keys - {k}, a, b, x, y)
  }

  lemma ExpandSquare(x: int, y: int, p: int, q: int)
    ensures (x * p - y * q) * (x * p - y * q) == x * x * (p * p) - 2 * (x * y) * (p * q) + y * y * (q * q)
  {
    assert (x * p) * (x * p) == x * x * (p * p);
    assert (x * p) * (y * q) == (x * y) * (p * q);
    assert (y * q) * (y * q) == y * y * (q * q);
  }

  lemma Distribute(c: int, u: int, v: int)
    ensures c * (u + v) == c * u + c * v
  {
  }

  lemma {:induction false} ExpandSquares(keys: set<string>, a: TermFreq, b: TermFreq, x: int, y: int)
    ensures SquaresOn(keys, a, b, x, y) ==
              x * x * DotOn(keys, a, a) - 2 * (x * y) * DotOn(keys, a, b) + y * y * DotOn(keys, b, b)
  {
    if keys != {} {
      var k :| k in keys && SquaresOn(keys, a, b, x, y) ==
        (x * At(a, k) - y * At(b, k)) * (x * At(a, k) - y * At(b, k)) + SquaresOn(keys - {k}, a, b, x, y);
      var rest := keys - {k};
      ExpandSquares(rest, a, b, x, y);
      ExpandSquare(x, y, At(a, k), At(b, k));
      DotWithout(keys, a, a, k);
      DotWithout(keys, a, b, k);
      DotWithout(keys, b, b, k);
      Distribute(x * x, At(a, k) * At(a, k), DotOn(rest, a, a));
      Distribute(2 * (x * y), At(a, k) * At(b, k), DotOn(rest, a, b));
      Distribute(y * y, At(b, k) * At(b, k), DotOn(rest, b, b));
    }
  }

  lemma SquareIsPositive(d: int)
    ensures d * d >= 0 && (d * d == 0 <==> d == 0)
  {
  }

  lemma {:induction false} SquaresVanishIff(keys: set<string>, a: TermFreq, b: TermFreq, x: int, y: int)
    ensures SquaresOn(keys, a, b, x, y) >= 0
    ensures SquaresOn(keys, a, b, x, y) == 0 <==> forall k :: k in keys ==> x * At(a, k) == y * At(b, k)
  {
    if keys != {} {
      var k :| k in keys && SquaresOn(keys, a, b, x, y) ==
        (x * At(a, k) - y * At(b, k)) * (x * At(a, k) - y * At(b, k)) + SquaresOn(keys - {k}, a, b, x, y);
      SquaresVanishIff(keys - {k}, a, b, x, y);
      var d := x * At(a, k) - y * At(b, k);
      SquareIsPositive(d);
      assert forall q :: q in keys <==> q in keys - {k} || q == k;
    }
  }

  /** With x = |b|^2 and y = a.b the sum of squares is |b|^2 (|a|^2 |b|^2 - (a.b)^2). */
  lemma GramIdentity(a: TermFreq, b: TermFreq)
    ensures SquaresOn(a.Keys + b.Keys, a, b, Norm2(b), Dot(a, b)) ==
              Norm2(b) * (Norm2(a) * Norm2(b) - Dot(a, b) * Dot(a, b))
  {
    var keys := a.Keys + b.Keys;
    var A, B, D := Norm2(a), Norm2(b), Dot(a, b);
    DotOverAll(a, a, keys);
    DotOverAll(b, b, keys);
    DotOverAll(a, b, keys);
    ExpandSquares(keys, a, b, B, D);
    Collect(A, B, D);
  }

  lemma Collect(A: int, B: int, D: int)
    ensures B * B * A - 2 * (B * D) * D + D * D * B == B * (A * B - D * D)
  {
    assert B * B * A == B * (A * B);
    assert (B * D) * D == B * (D * D);
    assert D * D * B == B * (D * D);
    assert B * (A * B - D * D) == B * (A * B) - B * (D * D);
  }

  /** Cosine similarity never exceeds 1. */
  lemma CauchySchwarz(a: TermFreq, b: TermFreq)
    ensures Dot(a, b) * Dot(a, b) <= Norm2(a) * Norm2(b)
  {
    var A, B, D := Norm2(a), Norm2(b), Dot(a, b);
    DotIsSymmetric(b, b);
    GramIdentity(a, b);
    SquaresVanishIff(a.Keys + b.Keys, a, b, B, D);
    if B > 0 {
      assert B * (A * B - D * D) >= 0;
      if A * B - D * D < 0 { NegativeProduct(B, A * B - D * D); }
    } else {
      ZeroNorm(b);
      DotWithZero(a, b);
    }
  }

  lemma NegativeProduct(p: int, n: int)
    requires p > 0 && n < 0
    ensures p * n < 0
  {
  }

  lemma {:induction false} ZeroNorm(b: TermFreq)
    requires Norm2(b) == 0
    ensures forall k :: At(b, k) == 0
  {
    forall k ensures At(b, k) == 0 {
      if k in b {
        DotWithout(b.Keys, b, b, k);
        DotCommutes(b.Keys - {k}, b, b);
        assert At(b, k) * At(b, k) >= 0;
        assert At(b, k) > 0 ==> At(b, k) * At(b, k) > 0;
      }
    }
  }

  lemma DotWithZero(a: TermFreq, b: TermFreq)
    requires forall k :: At(b, k) == 0
    ensures Dot(a, b) == 0
  {
    DotOnZero(a.Keys, a, b);
  }

  lemma {:induction false} DotOnZero(keys: set<string>, a: TermFreq, b: TermFreq)
    requires forall k :: At(b, k) == 0
    ensures DotOn(keys, a, b) == 0
  {
    if keys != {} {
      var k :| k in keys;
      DotWithout(keys, a, b, k);
      assert At(a, k) * At(b, k) == 0;
      DotOnZero(keys - {k}, a, b);
    }
  }

  // ----- the cache -----

  /** dot / (mag1 * mag2) >= threshold for a positive threshold and magnitudes, squared. */
  predicate Reaches(dot: int, n1: int, n2: int, threshold: real) {
    (dot * dot) as real >= threshold * threshold * ((n1 * n2) as real)
  }

  /** cosineSimilarity(...) >= threshold. */
  ghost predicate Similar(a: TermFreq, b: TermFreq, threshold: real) {
    Norm2(a) != 0 && Norm2(b) != 0 && Reaches(Dot(a, b), Norm2(a), Norm2(b), threshold)
  }

  datatype CacheEntry = CacheEntry(prompt: string, response: string, termFreq: TermFreq, norm2: int)

  /** The response of the first entry similar to tf. */
  ghost function FirstHit(entries: seq<CacheEntry>, threshold: real, tf: TermFreq): Option<string> {
    if entries == [] then None
    else if Similar(tf, entries[0].termFreq, threshold) then Some(entries[0].response)
    else FirstHit(entries[1..], threshold, tf)
  }

  /** None of the first n entries is similar. */
  ghost predicate Misses(entries: seq<CacheEntry>, threshold: real, tf: TermFreq, n: nat) {
    n <= |entries| && forall j :: 0 <= j < n ==> !Similar(tf, entries[j].termFreq, threshold)
  }

  lemma MissesOneMore(entries: seq<CacheEntry>, threshold: real, tf: TermFreq, n: nat)
    requires n < |entries| && Misses(entries, threshold, tf, n)
    ensures Misses(entries, threshold, tf, n + 1) <==> !Similar(tf, entries[n].termFreq, threshold)
  {
  }

  ghost predicate IsFirstSimilar(entries: seq<CacheEntry>, threshold: real, tf: TermFreq, i: nat) {
    i < |entries| && Similar(tf, entries[i].termFreq, threshold) && Misses(entries, threshold, tf, i)
  }

  /** An answer is the response of the first similar entry, and there is none only if no entry is similar. */
  ghost predicate Answers(entries: seq<CacheEntry>, threshold: real, tf: TermFreq, hit: Option<string>) {
    match hit
    case None => Misses(entries, threshold, tf, |entries|)
    case Some(response) => exists i: nat :: IsFirstSimilar(entries, threshold, tf, i) && response == entries[i].response
  }

  /** Looking up gives such an answer, and only one answer is such. */
  lemma {:induction false} FirstHitAnswers(entries: seq<CacheEntry>, threshold: real, tf: TermFreq, hit: Option<string>)
    ensures FirstHit(entries, threshold, tf) == hit <==> Answers(entries, threshold, tf, hit)
  {
    if i: nat :| IsFirstSimilar(entries, threshold, tf, i) {
      FirstHitAt(entries, threshold, tf, i);
      assert forall j: nat :: IsFirstSimilar(entries, threshold, tf, j) ==> j == i;
    } else {
      NothingSimilar(entries, threshold, tf, |entries|);
      MissIfNothingSimilar(entries, threshold, tf);
    }
  }

  lemma {:induction false} FirstHitAt(entries: seq<CacheEntry>, threshold: real, tf: TermFreq, i: nat)
    requires IsFirstSimilar(entries, threshold, tf, i)
    ensures FirstHit(entries, threshold, tf) == Some(entries[i].response)
  {
    if i > 0 {
      assert forall j :: 0 <= j < i - 1 ==> entries[1..][j] == entries[j + 1];
      FirstHitAt(entries[1..], threshold, tf, i - 1);
    }
  }

  lemma {:induction false} MissIfNothingSimilar(entries: seq<CacheEntry>, threshold: real, tf: TermFreq)
    requires forall i :: 0 <= i < |entries| ==> !Similar(tf, entries[i].termFreq, threshold)
    ensures FirstHit(entries, threshold, tf) == None
  {
    if entries != [] { MissIfNothingSimilar(entries[1..], threshold, tf); }
  }

  /** Without a first similar entry there is no similar one. */
  lemma {:induction false} NothingSimilar(entries: seq<CacheEntry>, threshold: real, tf: TermFreq, n: nat)
    requires n <= |entries| && forall i: nat :: !IsFirstSimilar(entries, threshold, tf, i)
    ensures forall i :: 0 <= i < n ==> !Similar(tf, entries[i].termFreq, threshold)
  {
    if n > 0 {
      NothingSimilar(entries, threshold, tf, n - 1);
      assert !IsFirstSimilar(entries, threshold, tf, n - 1);
    }
  }

  /** cosineSimilarity and its comparison with a positive threshold. */
  method Compare(tf1: TermFreq, tf2: TermFreq, norm1: int, norm2: int, threshold: real) returns (similar: bool)
    requires norm1 == Norm2(tf1) && norm2 == Norm2(tf2)
    ensures similar <==> Similar(tf1, tf2, threshold)
  {
    if norm1 == 0 || norm2 == 0 {
      return false;
    }
    var dot := DotProduct(tf1, tf2);
    similar := Reaches(dot, norm1, norm2, threshold);
  }

  class SemanticCache {
    var entries: seq<CacheEntry>
    const threshold: real
    const tables: CharTables

    ghost predicate Valid() reads this {
      && threshold > 0.0
      && forall e :: e in entries ==>
           Counts(e.termFreq, Bag(e.prompt, tables)) && e.norm2 == Norm2(e.termFreq) && e.norm2 != 0
    }

    constructor (threshold: real, tables: CharTables)
      ensures Valid() && entries == [] && this.tables == tables
      ensures this.threshold == if threshold <= 0.0 then 0.85 else threshold
    {
      this.threshold := if threshold <= 0.0 then 0.85 else threshold;
      this.tables := tables;
      entries := [];
    }

    /** The loop over the entries for a prompt that has words. */
    method LookUp(tf: TermFreq, norm2: int) returns (hit: Option<string>)
      requires Valid() && norm2 == Norm2(tf) && norm2 != 0
      ensures Answers(entries, threshold, tf, hit)
    {
      for i := 0 to |entries|
        invariant Misses(entries, threshold, tf, i)
      {
        var entry := entries[i];
        assert entry in entries;
        var similar := Compare(tf, entry.termFreq, norm2, entry.norm2, threshold);
        if similar {
          assert IsFirstSimilar(entries, threshold, tf, i);
          return Some(entry.response);
        }
        MissesOneMore(entries, threshold, tf, i);
      }
      hit := None;
    }

    method Get(prompt: string) returns (hit: Option<string>)
      requires Valid()
      ensures exists tf :: Counts(tf, Bag(prompt, tables)) && Answers(entries, threshold, tf, hit)
    {
      var tf := Tokenize(prompt, tables);
      var norm2 := MagnitudeSquared(tf);
      if norm2 == 0 {
        return None;
      }
      hit := LookUp(tf, norm2);
    }

    method Set(prompt: string, response: string)
      requires Valid()
      modifies this
      ensures Valid()
      ensures if Bag(prompt, tables) == multiset{} then entries == old(entries)
              else |entries| == |old(entries)| + 1 && entries[..|old(entries)|] == old(entries)
                   && entries[|old(entries)|].response == response && entries[|old(entries)|].prompt == prompt
    {
      var tf := Tokenize(prompt, tables);
      var norm2 := MagnitudeSquared(tf);
      NormIsZeroIff(tf, Bag(prompt, tables));
      if norm2 == 0 {
        return;
      }
      entries := entries + [CacheEntry(prompt, response, tf, norm2)];
    }
  }

  lemma NormIsZeroIff(tf: TermFreq, bag: multiset<string>)
    requires Counts(tf, bag)
    ensures Norm2(tf) >= 0 && (Norm2(tf) == 0 <==> bag == multiset{})
  {
    DotIsSymmetric(tf, tf);
    if Norm2(tf) == 0 {
      ZeroNorm(tf);
      forall w ensures bag[w] == 0 { assert At(tf, w) == bag[w]; }
    }
    if bag == multiset{} {
      forall w ensures At(tf, w) == 0 { assert At(tf, w) == bag[w]; }
      DotWithZero(tf, tf);
    }
  }

  /** A positive threshold t is reached by a vector against itself iff t <= 1. */
  lemma SelfSimilarIff(tf: TermFreq, threshold: real)
    requires Norm2(tf) != 0 && threshold > 0.0
    ensures Similar(tf, tf, threshold) <==> threshold <= 1.0
  {
    DotIsSymmetric(tf, tf);
    SquareAgainstOne(threshold, (Norm2(tf) * Norm2(tf)) as real);
    assert Norm2(tf) * Norm2(tf) > 0;
  }

  lemma SquareAgainstOne(t: real, n: real)
    requires t > 0.0 && n > 0.0
    ensures n >= t * t * n <==> t <= 1.0
  {
    if t <= 1.0 {
      assert t * t <= 1.0;
      assert (1.0 - t * t) * n >= 0.0;
    } else {
      assert t * t > 1.0;
      assert (t * t - 1.0) * n > 0.0;
    }
  }

  /** Similarity does not depend on which prompt was stored and which is asked. */
  lemma SimilarIsSymmetric(a: TermFreq, b: TermFreq, threshold: real)
    ensures Similar(a, b, threshold) <==> Similar(b, a, threshold)
  {
    DotIsSymmetric(a, b);
    assert Norm2(a) * Norm2(b) == Norm2(b) * Norm2(a);
  }

  /** No threshold above 1 is ever reached. */
  lemma NothingAboveOne(a: TermFreq, b: TermFreq, threshold: real)
    requires threshold > 1.0
    ensures !Similar(a, b, threshold)
  {
    if Norm2(a) != 0 && Norm2(b) != 0 {
      CauchySchwarz(a, b);
      DotIsSymmetric(a, a);
      DotIsSymmetric(b, b);
      assert Norm2(a) * Norm2(b) > 0;
      SquareAgainstOne(threshold, (Norm2(a) * Norm2(b)) as real);
    }
  }

  lemma {:induction false} SomeEntryHits(entries: seq<CacheEntry>, threshold: real, tf: TermFreq, e: CacheEntry)
    requires e in entries && Similar(tf, e.termFreq, threshold)
    ensures FirstHit(entries, threshold, tf).Some?
  {
    if !Similar(tf, entries[0].termFreq, threshold) { SomeEntryHits(entries[1..], threshold, tf, e); }
  }

  /** A prompt with the same bag of words as a stored one always hits, for every threshold up to 1. */
  lemma SameBagHits(entries: seq<CacheEntry>, threshold: real, e: CacheEntry, tf: TermFreq, bag: multiset<string>)
    requires 0.0 < threshold <= 1.0 && e in entries
    requires Counts(e.termFreq, bag) && Counts(tf, bag) && bag != multiset{}
    ensures FirstHit(entries, threshold, tf).Some?
  {
    CountsAreUnique(e.termFreq, tf, bag);
    NormIsZeroIff(tf, bag);
    SelfSimilarIff(tf, threshold);
    SomeEntryHits(entries, threshold, tf, e);
  }

  /** Once a prompt hits, later Sets never change its answer. */
  lemma {:induction false} AnswersAreStable(entries: seq<CacheEntry>, more: seq<CacheEntry>, threshold: real, tf: TermFreq)
    requires FirstHit(entries, threshold, tf).Some?
    ensures FirstHit(entries + more, threshold, tf) == FirstHit(entries, threshold, tf)
  {
    if !Similar(tf, entries[0].termFreq, threshold) {
      assert (entries + more)[1..] == entries[1..] + more;
      AnswersAreStable(entries[1..], more, threshold, tf);
    }
  }

  // ----- threshold 1 -----

  ghost predicate Proportional(a: TermFreq, b: TermFreq) {
    forall j, k :: At(a, j) * At(b, k) == At(a, k) * At(b, j)
  }

  /** If a and b are proportional, |b|^2 a_k == (a.b) b_k. */
  lemma {:induction false} ProportionalSums(keys: set<string>, a: TermFreq, b: TermFreq, k: string)
    requires Proportional(a, b)
    ensures DotOn(keys, b, b) * At(a, k) == DotOn(keys, a, b) * At(b, k)
  {
    if keys != {} {
      var j :| j in keys;
      DotWithout(keys, b, b, j);
      DotWithout(keys, a, b, j);
      ProportionalSums(keys - {j}, a, b, k);
      ProportionalStep(At(a, j), At(a, k), At(b, j), At(b, k), DotOn(keys - {j}, a, b), DotOn(keys - {j}, b, b));
    }
  }

  lemma ProportionalStep(aj: int, ak: int, bj: int, bk: int, ra: int, rb: int)
    requires aj * bk == ak * bj && rb * ak == ra * bk
    ensures (bj * bj + rb) * ak == (aj * bj + ra) * bk
  {
    assert (bj * bj) * ak == bj * (ak * bj);
    assert (aj * bj) * bk == bj * (aj * bk);
    assert (bj * bj + rb) * ak == (bj * bj) * ak + rb * ak;
    assert (aj * bj + ra) * bk == (aj * bj) * bk + ra * bk;
  }

  lemma CrossMultiply(B: int, D: int, aj: int, ak: int, bj: int, bk: int)
    requires B > 0 && B * aj == D * bj && B * ak == D * bk
    ensures aj * bk == ak * bj
  {
    assert B * (aj * bk) == (B * aj) * bk == (D * bj) * bk;
    assert B * (ak * bj) == (B * ak) * bj == (D * bk) * bj;
    assert (D * bj) * bk == (D * bk) * bj;
    assert B * (aj * bk - ak * bj) == 0;
  }

  /** Equality in Cauchy-Schwarz means proportional count vectors. */
  lemma EqualityIffProportional(a: TermFreq, b: TermFreq)
    requires Norm2(b) > 0
    ensures Dot(a, b) * Dot(a, b) == Norm2(a) * Norm2(b) <==> Proportional(a, b)
  {
    var keys := a.Keys + b.Keys;
    var A, B, D := Norm2(a), Norm2(b), Dot(a, b);
    GramIdentity(a, b);
    SquaresVanishIff(keys, a, b, B, D);
    assert B * (A * B - D * D) == 0 <==> A * B == D * D;
    if D * D == A * B {
      forall j, k ensures At(a, j) * At(b, k) == At(a, k) * At(b, j) {
        assert B * At(a, j) == D * At(b, j) by { if j !in keys { assert At(a, j) == 0 && At(b, j) == 0; } }
        assert B * At(a, k) == D * At(b, k) by { if k !in keys { assert At(a, k) == 0 && At(b, k) == 0; } }
        CrossMultiply(B, D, At(a, j), At(a, k), At(b, j), At(b, k));
      }
    }
    if Proportional(a, b) {
      DotOverAll(b, b, keys);
      DotOverAll(a, b, keys);
      forall k | k in keys ensures B * At(a, k) == D * At(b, k) {
        ProportionalSums(keys, a, b, k);
      }
    }
  }

  /** At threshold 1 exactly the non-empty prompts with proportional word counts are similar. */
  lemma ThresholdOneIsProportionality(a: TermFreq, b: TermFreq)
    ensures Similar(a, b, 1.0) <==> Norm2(a) != 0 && Norm2(b) != 0 && Proportional(a, b)
  {
    DotIsSymmetric(a, a);
    DotIsSymmetric(b, b);
    if Norm2(a) != 0 && Norm2(b) != 0 {
      CauchySchwarz(a, b);
      EqualityIffProportional(a, b);
      assert 1.0 * 1.0 * ((Norm2(a) * Norm2(b)) as real) == (Norm2(a) * Norm2(b)) as real;
    }
  }

  // ----- rounding -----

  // The code computes in float64: two square roots, a product and a quotient, each between lo and
  // hi times its exact value, 1 - 2^-53 and 1 + 2^-53 in float64. Counts and their sums are exact integers.

  predicate Rounds(exact: real, computed: real, lo: real, hi: real) {
    lo * exact <= computed <= hi * exact
  }

  /** q is a result of cosineSimilarity for this dot product and these exact magnitudes. */
  predicate Computes(dot: real, x1: real, x2: real, lo: real, hi: real, m1: real, m2: real, p: real, q: real) {
    && Rounds(x1, m1, lo, hi) && Rounds(x2, m2, lo, hi)
    && p > 0.0 && Rounds(m1 * m2, p, lo, hi) && Rounds(dot / p, q, lo, hi)
  }

  /** x is the exact magnitude. */
  ghost predicate IsMagnitude(x: real, tf: TermFreq) { x > 0.0 && x * x == Norm2(tf) as real }

  lemma Product(a: real, b: real, c: real, d: real) returns (ac: real, bd: real)
    requires 0.0 <= a <= b && 0.0 <= c <= d
    ensures ac == a * c && bd == b * d && 0.0 <= ac <= bd
  {
    ac, bd := a * c, b * d;
    assert a * c <= b * c <= b * d;
  }

  function Cube(x: real): real { x * x * x }

  lemma CubeTimes(h: real, x1: real, x2: real, b: real, d: real)
    requires b == h * x1 * (h * x2) && d == h * b
    ensures d == Cube(h) * (x1 * x2)
  {
    assert b == h * h * (x1 * x2);
  }

  lemma FromAbove(h: real, x1: real, x2: real, m1: real, m2: real, p: real) returns (x: real)
    requires 0.0 <= h && 0.0 <= m1 <= h * x1 && 0.0 <= m2 <= h * x2 && p <= h * (m1 * m2)
    ensures x == x1 * x2 && p <= Cube(h) * x
  {
    x := x1 * x2;
    var a, b := Product(m1, h * x1, m2, h * x2);
    var c, d := Product(h, h, a, b);
    CubeTimes(h, x1, x2, b, d);
  }

  lemma FromBelow(l: real, x1: real, x2: real, m1: real, m2: real, p: real) returns (x: real)
    requires 0.0 <= l && 0.0 <= l * x1 <= m1 && 0.0 <= l * x2 <= m2 && l * (m1 * m2) <= p
    ensures x == x1 * x2 && Cube(l) * x <= p
  {
    x := x1 * x2;
    var a, b := Product(l * x1, m1, l * x2, m2);
    var c, d := Product(l, l, a, b);
    CubeTimes(l, x1, x2, a, c);
  }

  /** The rounded quotient, multiplied out. */
  lemma Quotient(dot: real, p: real, lo: real, hi: real, q: real)
    requires p > 0.0 && Rounds(dot / p, q, lo, hi)
    ensures lo * dot <= q * p <= hi * dot
  {
    var e := dot / p;
    QuotientTimes(dot, p, e, lo, hi, q);
  }

  lemma QuotientTimes(dot: real, p: real, e: real, lo: real, hi: real, q: real)
    requires p > 0.0 && e * p == dot && Rounds(e, q, lo, hi)
    ensures lo * dot <= q * p <= hi * dot
  {
    var gap1, gap2 := q - lo * e, hi * e - q;
    var x, a := Product(0.0, gap1, 0.0, p);
    var y, b := Product(0.0, gap2, 0.0, p);
    assert a == q * p - lo * (e * p);
    assert b == hi * (e * p) - q * p;
  }

  lemma Cancel(a: real, b: real, c: real)
    requires c > 0.0
    ensures a * c >= b * c <==> a >= b
  {
    if a >= b {
      var x, y := Product(0.0, a - b, 0.0, c);
      assert y == a * c - b * c;
    } else {
      var y := (b - a) * c;
      assert y > 0.0 && y == b * c - a * c;
    }
  }

  /** Far enough above the threshold: s is t enlarged by the margin. */
  lemma HitFromAbove(dot: real, X: real, t: real, s: real, l: real, h3: real, p: real, q: real)
    requires X > 0.0 && t > 0.0 && l > 0.0 && h3 > 0.0 && p > 0.0
    requires s * l == t * h3 && dot >= s * X && p <= h3 * X && l * dot <= q * p
    ensures q >= t
  {
    var a, b := Product(l, l, s * X, dot);
    assert a == t * (h3 * X);
    var c, d := Product(t, t, p, h3 * X);
    assert t * p <= q * p;
    Cancel(q, t, p);
  }

  /** Far enough below it: s is t reduced by the margin. */
  lemma HitFromBelow(dot: real, X: real, t: real, s: real, h: real, l3: real, p: real, q: real)
    requires X > 0.0 && q >= t > 0.0 && h > 0.0 && l3 > 0.0 && p > 0.0
    requires s * h == t * l3 && l3 * X <= p && q * p <= h * dot
    ensures dot >= s * X
  {
    var c, d := Product(t, t, l3 * X, p);
    var e, f := Product(t, q, p, p);
    assert c == (s * X) * h;
    Cancel(dot, s * X, h);
  }

  lemma SquareOrder(a: real, b: real)
    requires a >= 0.0 && b >= 0.0
    ensures a >= b <==> a * a >= b * b
  {
    if a >= b {
      var x, y := Product(b, a, b, a);
    } else {
      var d, e := b - a, b + a;
      var y := d * e;
      assert y > 0.0 && y == b * b - a * a;
    }
  }

  lemma Positive(a: real, b: real) returns (ab: real)
    requires a > 0.0 && b > 0.0
    ensures ab == a * b && ab > 0.0
  {
    ab := a * b;
  }

  lemma CubePositive(x: real)
    requires x > 0.0
    ensures Cube(x) > 0.0
  {
    var y := Positive(x, x);
    var z := Positive(y, x);
  }

  lemma SquareOfProduct(x1: real, x2: real, n1: real, n2: real, x: real, s: real, y: real)
    requires x1 * x1 == n1 && x2 * x2 == n2 && x == x1 * x2 && y == s * x
    ensures y * y == s * s * (n1 * n2)
  {
    assert x * x == x1 * x1 * (x2 * x2);
    assert y * y == s * s * (x * x);
  }

  /** With exact magnitudes, similarity is the comparison the code makes. */
  lemma SimilarByMagnitudes(a: TermFreq, b: TermFreq, x1: real, x2: real, x: real, s: real)
    requires IsMagnitude(x1, a) && IsMagnitude(x2, b) && x == x1 * x2 && s > 0.0
    ensures Similar(a, b, s) <==> Dot(a, b) as real >= s * x
  {
    var (dot, n1, n2) := (Dot(a, b) as real, Norm2(a) as real, Norm2(b) as real);
    DotIsSymmetric(a, b);
    var z := Positive(x1, x2);
    var y := Positive(s, x);
    SquareOrder(dot, y);
    SquareOfProduct(x1, x2, n1, n2, x, s, y);
    CastsAgree(a, b);
  }

  lemma CastsAgree(a: TermFreq, b: TermFreq)
    ensures (Dot(a, b) * Dot(a, b)) as real == Dot(a, b) as real * Dot(a, b) as real
    ensures (Norm2(a) * Norm2(b)) as real == Norm2(a) as real * Norm2(b) as real
  {
  }

  lemma MagnitudesRounded(lo: real, hi: real, x1: real, x2: real, m1: real, m2: real, p: real) returns (x: real)
    requires 0.0 < lo <= hi && x1 > 0.0 && x2 > 0.0
    requires Rounds(x1, m1, lo, hi) && Rounds(x2, m2, lo, hi) && Rounds(m1 * m2, p, lo, hi)
    ensures x == x1 * x2 && x > 0.0 && Cube(lo) * x <= p <= Cube(hi) * x
  {
    x := Positive(x1, x2);
    var l1 := Positive(lo, x1);
    var l2 := Positive(lo, x2);
    var above := FromAbove(hi, x1, x2, m1, m2, p);
    var below := FromBelow(lo, x1, x2, m1, m2, p);
  }

  /** A prompt hits that is similar at the threshold enlarged by the factor hi^3/lo. */
  lemma SimilarAboveHits(a: TermFreq, b: TermFreq, t: real, s: real, lo: real, hi: real,
                         x1: real, x2: real, m1: real, m2: real, p: real, q: real)
    requires IsMagnitude(x1, a) && IsMagnitude(x2, b) && t > 0.0 && s > 0.0 && 0.0 < lo <= hi
    requires Computes(Dot(a, b) as real, x1, x2, lo, hi, m1, m2, p, q)
    requires s * lo == t * Cube(hi) && Similar(a, b, s)
    ensures q >= t
  {
    var x := MagnitudesRounded(lo, hi, x1, x2, m1, m2, p);
    CubePositive(hi);
    SimilarByMagnitudes(a, b, x1, x2, x, s);
    Quotient(Dot(a, b) as real, p, lo, hi, q);
    HitFromAbove(Dot(a, b) as real, x, t, s, lo, Cube(hi), p, q);
  }

  /** What hits is similar at the threshold reduced by the factor lo^3/hi; so rounding matters only near it. */
  lemma HitIsSimilarBelow(a: TermFreq, b: TermFreq, t: real, s: real, lo: real, hi: real,
                          x1: real, x2: real, m1: real, m2: real, p: real, q: real)
    requires IsMagnitude(x1, a) && IsMagnitude(x2, b) && t > 0.0 && s > 0.0 && 0.0 < lo <= hi
    requires Computes(Dot(a, b) as real, x1, x2, lo, hi, m1, m2, p, q)
    requires s * hi == t * Cube(lo) && q >= t
    ensures Similar(a, b, s)
  {
    var x := MagnitudesRounded(lo, hi, x1, x2, m1, m2, p);
    CubePositive(lo);
    SimilarByMagnitudes(a, b, x1, x2, x, s);
    Quotient(Dot(a, b) as real, p, lo, hi, q);
    HitFromBelow(Dot(a, b) as real, x, t, s, hi, Cube(lo), p, q);
  }

  /** So the words of a stored prompt hit for every threshold up to lo/hi^3, whatever the rounding. */
  lemma SameBagHitsDespiteRounding(tf: TermFreq, t: real, lo: real, hi: real, x: real, m: real, p: real, q: real)
    requires IsMagnitude(x, tf) && 0.0 < lo <= hi && 0.0 < t && t * Cube(hi) <= lo
    requires Computes(x * x, x, x, lo, hi, m, m, p, q)
    ensures q >= t
  {
    CubePositive(hi);
    var y := Positive(t, Cube(hi));
    var s := Ratio(y, lo);
    var z := Positive(x, x);
    SelfSimilarIff(tf, s);
    SimilarAboveHits(tf, tf, t, s, lo, hi, x, x, m, m, p, q);
  }

  lemma Ratio(y: real, d: real) returns (s: real)
    requires 0.0 < y <= d
    ensures s * d == y && 0.0 < s <= 1.0
  {
    s := y / d;
  }
}
