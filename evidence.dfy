/** Evidence mode of the handler: the sub-searches it issues, the merge of
    their settled outcomes, and the removal of repeated links. */
module Evidence {
  import opened Wrappers
  import opened Js
  import opened Upstream

  /** The sub-searches of evidence mode: two fixed variants of the query,
      then one per keyword, cut to the first three. Each asks for a third of
      `numResults`, rounded up. */
  function EvidenceSearches(query: string, keywords: seq<string>, numResults: int): (r: seq<Search>)
    ensures |r| == if keywords == [] then 2 else 3
    ensures r[0].query == query + " evidence statistics data"
    ensures r[1].query == query + " research study findings"
    ensures |r| == 3 ==> r[2].query == keywords[0] + " " + query + " facts"
    ensures forall i | 0 <= i < |r| :: numResults <= 3 * r[i].numResults < numResults + 3
  {
    var texts := [query + " evidence statistics data", query + " research study findings"]
      + seq(|keywords|, i requires 0 <= i < |keywords| => keywords[i] + " " + query + " facts");
    var chosen := SliceTo(texts, 3);
    var each := CeilThird(numResults);
    seq(|chosen|, i requires 0 <= i < |chosen| => Search(chosen[i], each))
  }

  /** The three sub-searches never repeat a query, so each asks the
      provider something different. */
  lemma {:induction false} EvidenceSearchesDiffer(query: string, keywords: seq<string>, numResults: int)
    ensures var r := EvidenceSearches(query, keywords, numResults);
      forall i, j | 0 <= i < j < |r| :: r[i].query != r[j].query
  {
    var r := EvidenceSearches(query, keywords, numResults);
    var q0, q1 := r[0].query, r[1].query;
    assert |q0| != |q1|;
    assert q0[|q0| - 1] == 'a';
    assert q1[|q1| - 2] == 'g';
    if |r| == 3 {
      var q2 := r[2].query;
      assert q2[|q2| - 1] == 's';
      assert q2[|q2| - 2] == 't';
    }
  }

  /** `results = results.concat(result.value)` over the settled outcomes:
      the values of the fulfilled ones, concatenated in input order. */
  function Fulfilled(outcomes: seq<Result<seq<RawResult>>>): seq<RawResult> {
    if outcomes == [] then []
    else (if outcomes[0].Ok? then outcomes[0].value else []) + Fulfilled(outcomes[1..])
  }

  /** Merging can be done outcome by outcome: the merge of a concatenation is
      the concatenation of the merges. */
  lemma {:induction false} FulfilledAppend(a: seq<Result<seq<RawResult>>>, b: seq<Result<seq<RawResult>>>)
    ensures Fulfilled(a + b) == Fulfilled(a) + Fulfilled(b)
  {
    if a != [] {
      assert (a + b)[1..] == a[1..] + b;
      FulfilledAppend(a[1..], b);
    } else {
      assert a + b == b;
    }
  }

  /** When every sub-search is rejected there is nothing to merge. */
  lemma {:induction false} AllRejectedMergeEmpty(outcomes: seq<Result<seq<RawResult>>>)
    requires forall i | 0 <= i < |outcomes| :: outcomes[i].Err?
    ensures Fulfilled(outcomes) == []
  {
    if outcomes != [] {
      AllRejectedMergeEmpty(outcomes[1..]);
    }
  }

  /** `s.findIndex(r => r.link === link)`: the first position holding
      `link`, or -1 when there is none. */
  function FindLink(s: seq<RawResult>, link: Option<string>): (i: int)
    ensures -1 <= i < |s|
    ensures 0 <= i ==> s[i].link == link
    ensures forall j | 0 <= j < |s| && (i < 0 || j < i) :: s[j].link != link
  {
    if s == [] then -1
    else if s[0].link == link then 0
    else
      var j := FindLink(s[1..], link);
      if j < 0 then -1 else j + 1
  }

  /** The source's filter from position `from` on: `s[i]` is kept when
      `findIndex` finds its link at `i`. */
  function KeepFirstFrom(s: seq<RawResult>, from: nat): seq<RawResult>
    requires from <= |s|
    decreases |s| - from
  {
    if from == |s| then []
    else (if FindLink(s, s[from].link) == from then [s[from]] else []) + KeepFirstFrom(s, from + 1)
  }

  /** `s.filter((result, index, self) => index === self.findIndex(r => r.link === result.link))`. */
  function UniqueByLink(s: seq<RawResult>): seq<RawResult> {
    KeepFirstFrom(s, 0)
  }

  /** The links occurring in `s`; an absent link is one key of its own. */
  function Links(s: seq<RawResult>): set<Option<string>> {
    if s == [] then {} else Links(s[..|s| - 1]) + {s[|s| - 1].link}
  }

  /** A link is among the links of `s` exactly when `findIndex` finds it. */
  lemma {:induction false} LinksAreFound(s: seq<RawResult>, l: Option<string>)
    ensures l in Links(s) <==> 0 <= FindLink(s, l)
  {
    if s != [] {
      var init := s[..|s| - 1];
      LinksAreFound(init, l);
      var f, g := FindLink(s, l), FindLink(init, l);
      if 0 <= g {
        assert s[g] == init[g];
      }
    }
  }

  /** Reference definition of keeping the first of each link: one pass that
      remembers the links already seen. */
  function DedupSeen(s: seq<RawResult>, seen: set<Option<string>>): seq<RawResult> {
    if s == [] then []
    else if s[0].link in seen then DedupSeen(s[1..], seen)
    else [s[0]] + DedupSeen(s[1..], seen + {s[0].link})
  }

  lemma {:induction false} LinksCons(s: seq<RawResult>)
    requires s != []
    ensures Links(s) == {s[0].link} + Links(s[1..])
  {
    if |s| > 1 {
      LinksCons(s[..|s| - 1]);
      assert s[..|s| - 1][1..] == s[1..][..|s[1..]| - 1];
      assert s[..|s| - 1][0] == s[0];
    } else {
      assert s[..0] == [] && s[1..] == [];
    }
  }

  lemma LinksSnoc(s: seq<RawResult>, i: nat)
    requires i < |s|
    ensures Links(s[..i + 1]) == Links(s[..i]) + {s[i].link}
  {
    assert s[..i + 1][..i] == s[..i];
  }

  /** `findIndex` finds `s[i]`'s link at `i` exactly when no earlier
      result carries it. */
  lemma FoundHereIffNew(s: seq<RawResult>, i: nat)
    requires i < |s|
    ensures FindLink(s, s[i].link) == i <==> s[i].link !in Links(s[..i])
  {
    var l := s[i].link;
    var f, g := FindLink(s, l), FindLink(s[..i], l);
    LinksAreFound(s[..i], l);
    if 0 <= g {
      assert s[g] == s[..i][g];
    }
  }

  /** The source's `findIndex` filter and the one-pass reference agree. */
  lemma {:induction false} KeepFirstFromIsDedupSeen(s: seq<RawResult>, from: nat)
    requires from <= |s|
    ensures KeepFirstFrom(s, from) == DedupSeen(s[from..], Links(s[..from]))
    decreases |s| - from
  {
    if from < |s| {
      var l := s[from].link;
      var seen := Links(s[..from]);
      KeepFirstFromIsDedupSeen(s, from + 1);
      LinksSnoc(s, from);
      FoundHereIffNew(s, from);
      var rest := s[from..];
      assert rest[0] == s[from] && rest[1..] == s[from + 1..];
      if l in seen {
        assert seen + {l} == seen;
        assert DedupSeen(rest, seen) == DedupSeen(rest[1..], seen);
      } else {
        assert DedupSeen(rest, seen) == [s[from]] + DedupSeen(rest[1..], seen + {l});
      }
    }
  }

  lemma UniqueByLinkIsDedupSeen(s: seq<RawResult>)
    ensures UniqueByLink(s) == DedupSeen(s, {})
  {
    KeepFirstFromIsDedupSeen(s, 0);
    assert s[0..] == s;
    assert Links(s[..0]) == {};
  }

  /** `idx` lists, in increasing order, the positions of `s` that `r` is
      made of. */
  ghost predicate SubsequenceAt(r: seq<RawResult>, s: seq<RawResult>, idx: seq<nat>) {
    && |idx| == |r|
    && (forall k | 0 <= k < |idx| :: idx[k] < |s| && r[k] == s[idx[k]])
    && (forall k, l | 0 <= k < l < |idx| :: idx[k] < idx[l])
  }

  ghost predicate IsSubsequence(r: seq<RawResult>, s: seq<RawResult>) {
    exists idx :: SubsequenceAt(r, s, idx)
  }

  predicate DistinctLinks(s: seq<RawResult>) {
    forall i, j | 0 <= i < j < |s| :: s[i].link != s[j].link
  }

  function Shift(idx: seq<nat>): (r: seq<nat>)
    ensures |r| == |idx| && forall k | 0 <= k < |r| :: r[k] == idx[k] + 1
  {
    seq(|idx|, k requires 0 <= k < |idx| => idx[k] + 1)
  }

  /** The one-pass reference keeps an order-preserving selection of its
      input. */
  lemma {:induction false} DedupSeenSelects(s: seq<RawResult>, seen: set<Option<string>>) returns (idx: seq<nat>)
    ensures SubsequenceAt(DedupSeen(s, seen), s, idx)
  {
    if s == [] {
      idx := [];
    } else {
      var l := s[0].link;
      var seen' := if l in seen then seen else seen + {l};
      var tail := DedupSeenSelects(s[1..], seen');
      var r, rest := DedupSeen(s, seen), DedupSeen(s[1..], seen');
      var shifted := Shift(tail);
      forall k | 0 <= k < |shifted| ensures shifted[k] < |s| && rest[k] == s[shifted[k]] {
        assert s[1..][tail[k]] == s[tail[k] + 1];
      }
      if l in seen {
        idx := shifted;
      } else {
        idx := [0] + shifted;
        assert r == [s[0]] + rest;
        forall k | 0 <= k < |idx| ensures idx[k] < |s| && r[k] == s[idx[k]] {
          if k > 0 { assert r[k] == rest[k - 1] && idx[k] == shifted[k - 1]; }
        }
      }
    }
  }

  /** The links the one-pass reference keeps are pairwise distinct and none
      of them was already seen. */
  lemma {:induction false} DedupSeenDistinct(s: seq<RawResult>, seen: set<Option<string>>)
    ensures DistinctLinks(DedupSeen(s, seen))
    ensures forall k | 0 <= k < |DedupSeen(s, seen)| :: DedupSeen(s, seen)[k].link !in seen
  {
    if s != [] {
      var l := s[0].link;
      if l in seen {
        DedupSeenDistinct(s[1..], seen);
      } else {
        DedupSeenDistinct(s[1..], seen + {l});
        var r := DedupSeen(s, seen);
        assert r[1..] == DedupSeen(s[1..], seen + {l});
        forall k | 0 < k < |r| ensures r[k].link != l && r[k].link !in seen {
          assert r[k] == r[1..][k - 1];
        }
      }
    }
  }

  /** The one-pass reference loses no link that was not already seen. */
  lemma {:induction false} DedupSeenLinks(s: seq<RawResult>, seen: set<Option<string>>)
    ensures Links(DedupSeen(s, seen)) == Links(s) - seen
  {
    if s != [] {
      LinksCons(s);
      var l := s[0].link;
      if l in seen {
        DedupSeenLinks(s[1..], seen);
      } else {
        DedupSeenLinks(s[1..], seen + {l});
        var r := DedupSeen(s, seen);
        LinksCons(r);
        assert r[1..] == DedupSeen(s[1..], seen + {l});
      }
    }
  }

  /** `x` is the first element of `s` that carries `x`'s link. */
  predicate FirstWithItsLink(s: seq<RawResult>, x: RawResult) {
    0 <= FindLink(s, x.link) && s[FindLink(s, x.link)] == x
  }

  /** Every element the source's filter keeps is the first element of the
      input with its link. */
  lemma {:induction false} KeepFirstFromKeepsFirst(s: seq<RawResult>, from: nat)
    requires from <= |s|
    ensures forall x | x in KeepFirstFrom(s, from) :: FirstWithItsLink(s, x)
    decreases |s| - from
  {
    if from < |s| {
      KeepFirstFromKeepsFirst(s, from + 1);
    }
  }

  /** Removing repeated links keeps an order-preserving selection of the
      merged results, with pairwise distinct links, each the first result
      carrying that link, and every link of the input still present. */
  lemma UniqueByLinkFacts(s: seq<RawResult>)
    ensures var r := UniqueByLink(s);
      && IsSubsequence(r, s)
      && DistinctLinks(r)
      && (forall x | x in r :: FirstWithItsLink(s, x))
      && Links(r) == Links(s)
  {
    UniqueByLinkIsDedupSeen(s);
    var idx := DedupSeenSelects(s, {});
    DedupSeenDistinct(s, {});
    DedupSeenLinks(s, {});
    KeepFirstFromKeepsFirst(s, 0);
  }

  /** `uniqueResults.slice(0, numResults)` after merging: the results of
      evidence mode before formatting. */
  function EvidenceResults(outcomes: seq<Result<seq<RawResult>>>, numResults: int): seq<RawResult> {
    SliceTo(UniqueByLink(Fulfilled(outcomes)), numResults)
  }

  /** The evidence results are an order-preserving selection of the merged
      results with pairwise distinct links, each the first merged result
      with its link, and there are at most `numResults` of them when
      `numResults` is not negative. */
  lemma EvidenceResultsFacts(outcomes: seq<Result<seq<RawResult>>>, numResults: int)
    ensures var merged := Fulfilled(outcomes);
      var r := EvidenceResults(outcomes, numResults);
      && IsSubsequence(r, merged)
      && DistinctLinks(r)
      && (forall x | x in r :: FirstWithItsLink(merged, x))
      && (0 <= numResults ==> |r| <= numResults)
  {
    var merged := Fulfilled(outcomes);
    var u := UniqueByLink(merged);
    var r := EvidenceResults(outcomes, numResults);
    UniqueByLinkFacts(merged);
    var idx :| SubsequenceAt(u, merged, idx);
    assert r == u[..|r|];
    assert SubsequenceAt(r, merged, idx[..|r|]);
  }
}
