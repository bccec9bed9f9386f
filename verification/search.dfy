/** The search box: the catalog narrowed to the entries whose name,
    description or category contains the search term, ignoring case. */
module Search {
  import opened Text
  import opened Catalog

  /** The per-entry test of the filter: the lower-cased term occurs in the
      lower-cased name, description or category. */
  predicate Matches(f: Framework, term: string)
    ensures Matches(f, term) <==>
      || Occurs(Lower(f.name), Lower(term))
      || Occurs(Lower(f.description), Lower(term))
      || Occurs(Lower(f.category), Lower(term))
  {
    var q := Lower(term);
    ContainsIffOccurs(Lower(f.name), q);
    ContainsIffOccurs(Lower(f.description), q);
    ContainsIffOccurs(Lower(f.category), q);
    Contains(Lower(f.name), q) || Contains(Lower(f.description), q) || Contains(Lower(f.category), q)
  }

  /** `frameworks.filter(...)`: keeps the matching entries, in order. */
  function Filter(c: seq<Framework>, term: string): (r: seq<Framework>)
    ensures |r| <= |c|
    ensures forall f :: f in r ==> f in c && Matches(f, term)
    ensures forall f :: f in c && Matches(f, term) ==> f in r
  {
    if c == [] then []
    else (if Matches(c[0], term) then [c[0]] else []) + Filter(c[1..], term)
  }

  /** `idx` lists, in increasing order, the positions of `b` that `a` is read from. */
  ghost predicate Embeds<T>(a: seq<T>, b: seq<T>, idx: seq<int>) {
    && |idx| == |a|
    && (forall k :: 0 <= k < |idx| ==> 0 <= idx[k] < |b| && a[k] == b[idx[k]])
    && (forall k, l :: 0 <= k < l < |idx| ==> idx[k] < idx[l])
  }

  /** `a` is `b` with some elements dropped and the rest kept in order. */
  ghost predicate IsSubsequence<T>(a: seq<T>, b: seq<T>) {
    exists idx :: Embeds(a, b, idx)
  }

  /** Prepending an element to `b` shifts an embedding by one; prepending it to
      both sides adds position 0. */
  lemma EmbedsCons<T>(x: T, a: seq<T>, b: seq<T>, idx: seq<int>, keep: bool)
    returns (idx': seq<int>)
    requires Embeds(a, b, idx)
    ensures keep ==> Embeds([x] + a, [x] + b, idx')
    ensures !keep ==> Embeds(a, [x] + b, idx')
  {
    var shifted := seq(|idx|, k requires 0 <= k < |idx| => idx[k] + 1);
    if keep {
      idx' := [0] + shifted;
    } else {
      idx' := shifted;
    }
  }

  /** The result is the catalog with some entries dropped and the rest in their
      original relative order. */
  lemma {:induction false} FilterIsSubsequence(c: seq<Framework>, term: string)
    ensures IsSubsequence(Filter(c, term), c)
  {
    var idx := FilterEmbedding(c, term);
  }

  lemma {:induction false} FilterEmbedding(c: seq<Framework>, term: string)
    returns (idx: seq<int>)
    ensures Embeds(Filter(c, term), c, idx)
  {
    if c == [] {
      idx := [];
    } else {
      var rest := FilterEmbedding(c[1..], term);
      assert [c[0]] + c[1..] == c;
      idx := EmbedsCons(c[0], Filter(c[1..], term), c[1..], rest, Matches(c[0], term));
    }
  }

  /** Each entry occurs in the result as often as in the catalog when it matches,
      and not at all otherwise. */
  lemma {:induction false} FilterCounts(c: seq<Framework>, term: string, f: Framework)
    ensures multiset(Filter(c, term))[f] == if Matches(f, term) then multiset(c)[f] else 0
  {
    if c != [] {
      FilterCounts(c[1..], term, f);
      assert c == [c[0]] + c[1..];
      assert multiset(c) == multiset([c[0]]) + multiset(c[1..]);
    }
  }

  /** An empty search term shows the whole catalog, unchanged. */
  lemma {:induction false} FilterEmptyTerm(c: seq<Framework>)
    ensures Filter(c, "") == c
  {
    if c != [] {
      ContainsEmpty(Lower(c[0].name));
      FilterEmptyTerm(c[1..]);
      assert [c[0]] + c[1..] == c;
    }
  }

  /** Two terms that lower-case alike select exactly the same entries. */
  lemma {:induction false} FilterSameLower(c: seq<Framework>, t1: string, t2: string)
    requires Lower(t1) == Lower(t2)
    ensures Filter(c, t1) == Filter(c, t2)
  {
    if c != [] {
      assert Matches(c[0], t1) == Matches(c[0], t2);
      FilterSameLower(c[1..], t1, t2);
    }
  }

  /** The filter is case-insensitive in the term. */
  lemma FilterCaseInsensitive(c: seq<Framework>, term: string)
    ensures Filter(c, term) == Filter(c, Lower(term))
  {
    LowerIdempotent(term);
    FilterSameLower(c, term, Lower(term));
  }

  /** The list is empty exactly when no catalog entry matches. */
  lemma FilterEmptyIff(c: seq<Framework>, term: string)
    ensures Filter(c, term) == [] <==> forall f :: f in c ==> !Matches(f, term)
  {
    if Filter(c, term) != [] {
      assert Filter(c, term)[0] in Filter(c, term);
    }
  }

  /** An entry that matches a term also matches every prefix of that term. */
  lemma MatchesPrefix(f: Framework, t1: string, t2: string)
    requires IsPrefix(t1, t2) && Matches(f, t2)
    ensures Matches(f, t1)
  {
    LowerPrefix(t1, t2);
    if Contains(Lower(f.name), Lower(t2)) {
      ContainsPrefixOfQuery(Lower(f.name), Lower(t1), Lower(t2));
    } else if Contains(Lower(f.description), Lower(t2)) {
      ContainsPrefixOfQuery(Lower(f.description), Lower(t1), Lower(t2));
    } else {
      ContainsPrefixOfQuery(Lower(f.category), Lower(t1), Lower(t2));
    }
  }

  /** Typing further characters after the term only ever removes entries:
      the longer term's list is a subsequence of the shorter one's. */
  lemma {:induction false} FilterNarrows(c: seq<Framework>, t1: string, t2: string)
    returns (idx: seq<int>)
    requires IsPrefix(t1, t2)
    ensures Embeds(Filter(c, t2), Filter(c, t1), idx)
  {
    if c == [] {
      idx := [];
    } else {
      var rest := FilterNarrows(c[1..], t1, t2);
      var f := c[0];
      var r1 := Filter(c[1..], t1);
      var r2 := Filter(c[1..], t2);
      if Matches(f, t2) {
        MatchesPrefix(f, t1, t2);
        assert Filter(c, t1) == [f] + r1 && Filter(c, t2) == [f] + r2;
        idx := EmbedsCons(f, r2, r1, rest, true);
      } else if Matches(f, t1) {
        assert Filter(c, t1) == [f] + r1 && Filter(c, t2) == r2;
        idx := EmbedsCons(f, r2, r1, rest, false);
      } else {
        assert Filter(c, t1) == r1 && Filter(c, t2) == r2;
        idx := rest;
      }
    }
  }

  /** Filtering the filtered list again with the same term changes nothing. */
  lemma {:induction false} FilterIdempotent(c: seq<Framework>, term: string)
    ensures Filter(Filter(c, term), term) == Filter(c, term)
  {
    if c != [] {
      var head := if Matches(c[0], term) then [c[0]] else [];
      var tail := Filter(c[1..], term);
      assert Filter(c, term) == head + tail;
      FilterIdempotent(c[1..], term);
      FilterAppend(head, tail, term);
      assert Filter(head, term) == head by {
        if Matches(c[0], term) {
          assert head[1..] == [];
        }
      }
    }
  }

  lemma {:induction false} FilterAppend(a: seq<Framework>, b: seq<Framework>, term: string)
    ensures Filter(a + b, term) == Filter(a, term) + Filter(b, term)
  {
    if a == [] {
      assert a + b == b;
    } else {
      assert (a + b)[1..] == a[1..] + b;
      FilterAppend(a[1..], b, term);
    }
  }

  /** Distinct ids in the catalog stay distinct in every filtered list, so the
      rendered cards always have unique keys. */
  lemma FilterKeepsIdsDistinct(c: seq<Framework>, term: string)
    requires DistinctIds(c)
    ensures DistinctIds(Filter(c, term))
  {
    var idx := FilterEmbedding(c, term);
    var r := Filter(c, term);
    forall i, j | 0 <= i < j < |r|
      ensures r[i].id != r[j].id
    {
      assert r[i] == c[idx[i]] && r[j] == c[idx[j]] && idx[i] < idx[j];
    }
  }
}
