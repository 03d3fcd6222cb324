/** The majority test on the replies to a block request. */
module Majority {
  import opened Words
  import opened Chain

  /** A block somebody replied with, and how many did; one entry per hash. */
  datatype Entry = Entry(block: Block, count: nat)

  /** The standings: value 0 counts the "no block" replies, value k the k-th block. */
  function Values(noBlock: nat, entries: seq<Entry>): (v: seq<nat>)
    ensures |v| == |entries| + 1
  {
    seq(|entries| + 1, k requires 0 <= k <= |entries| => if k == 0 then noBlock else entries[k - 1].count)
  }

  /** w is ahead of every rival, known or not, by more than the m outstanding votes. */
  predicate Leads(v: seq<nat>, w: nat, m: nat) {
    && w < |v| && v[w] > m
    && forall j: nat :: j < |v| && j != w ==> v[w] > v[j] + m
  }

  ghost predicate HasLeader(v: seq<nat>, m: nat) {
    exists w: nat :: Leads(v, w, m)
  }

  ghost function Leader(v: seq<nat>, m: nat): (w: nat)
    requires HasLeader(v, m)
    ensures Leads(v, w, m)
  {
    var w: nat :| Leads(v, w, m); w
  }

  function Candidate(entries: seq<Entry>, w: nat): Option<Block>
    requires w <= |entries|
  {
    if w == 0 then None else Some(entries[w - 1].block)
  }

  /** What checkMajority reports: nothing yet, or a winner (None standing for "no block"). */
  ghost function Verdict(i: nat, n: nat, noBlock: nat, entries: seq<Entry>): Option<Option<Block>>
    requires i <= n
  {
    var v := Values(noBlock, entries);
    if i < n / 2 then None
    else if entries == [] then Some(None)
    else if HasLeader(v, n - i) then Some(Candidate(entries, Leader(v, n - i)))
    else None
  }

  lemma LeaderUnique(v: seq<nat>, w: nat, w': nat, m: nat)
    requires Leads(v, w, m) && Leads(v, w', m)
    ensures w == w'
  {}

  /** The two greatest values, with multiplicity: place w holds the first, place u the second. */
  ghost predicate TopTwo(v: seq<nat>, w: nat, u: nat) {
    && w < |v| && u < |v| && w != u && v[u] <= v[w]
    && forall j: nat :: (j < |v| && j != w ==> v[j] <= v[u])
  }

  lemma TopTwoExtends(v: seq<nat>, w: nat, u: nat, x: nat)
    requires TopTwo(v, w, u)
    ensures TopTwo(v + [x], if x > v[w] then |v| else w, if x > v[w] then w else if x > v[u] then |v| else u)
  {}

  lemma TopTwoDecides(v: seq<nat>, w: nat, u: nat, m: nat)
    requires TopTwo(v, w, u)
    ensures v[w] > v[u] + m <==> HasLeader(v, m)
    ensures v[w] > v[u] + m ==> Leader(v, m) == w
  {
    if v[w] > v[u] + m {
      assert Leads(v, w, m);
      LeaderUnique(v, w, Leader(v, m), m);
    } else if HasLeader(v, m) {
      LeaderAhead(v, w, u, Leader(v, m), m);
    }
  }

  lemma LeaderAhead(v: seq<nat>, w: nat, u: nat, k: nat, m: nat)
    requires TopTwo(v, w, u) && Leads(v, k, m)
    ensures v[w] > v[u] + m
  {
    if k == w { assert v[k] > v[u] + m; }
  }

  method CheckMajority(i: nat, n: nat, noBlock: nat, messages: seq<Entry>)
    returns (found: bool, largestBlock: Option<Block>)
    requires i <= n
    ensures found ==> Verdict(i, n, noBlock, messages) == Some(largestBlock)
    ensures !found ==> Verdict(i, n, noBlock, messages) == None
  {
    largestBlock := None;
    if i >= n / 2 {
      if |messages| > 0 {
        var largest := noBlock;
        var secondLargest := messages[0].count;
        ghost var v: seq<nat>, w: nat, u: nat := Values(noBlock, messages), 0, 1;
        if secondLargest == largest {
          // no consensus
        } else if secondLargest > largest {
          var temp := secondLargest;
          secondLargest := largest;
          largest := temp;
          largestBlock := Some(messages[0].block);
          w, u := 1, 0;
        }
        for it := 1 to |messages|
          invariant TopTwo(v[..it + 1], w, u) && largest == v[w] && secondLargest == v[u]
          invariant largestBlock == Candidate(messages, w)
        {
          TopTwoExtends(v[..it + 1], w, u, v[it + 1]);
          assert v[..it + 2] == v[..it + 1] + [v[it + 1]];
          if messages[it].count > largest {
            largestBlock := Some(messages[it].block);
            secondLargest := largest;
            largest := messages[it].count;
            w, u := it + 1, w;
          } else if messages[it].count > secondLargest {
            secondLargest := messages[it].count;
            u := it + 1;
          }
        }
        assert v[..|messages| + 1] == v;
        TopTwoDecides(v, w, u, n - i);
        if largest > secondLargest + (n - i) {
          return true, largestBlock;
        }
      } else {
        return true, None;
      }
    }
    found := false;
  }

  // ------------------------------------------------------------- finality

  function Sum(v: seq<nat>): nat {
    if v == [] then 0 else Sum(v[..|v| - 1]) + v[|v| - 1]
  }

  /** A way to cast at most m outstanding votes, possibly for blocks nobody has named yet. */
  ghost predicate Completion(v: seq<nat>, f: seq<nat>, m: nat) {
    && |v| <= |f|
    && (forall k :: 0 <= k < |v| ==> v[k] <= f[k])
    && Sum(f) <= Sum(v) + m
  }

  ghost predicate StrictlyFirst(f: seq<nat>, w: nat) {
    w < |f| && forall j: nat :: j < |f| && j != w ==> f[w] > f[j]
  }

  /** However the outstanding votes are cast, w ends up strictly ahead of every rival. */
  ghost predicate Settled(v: seq<nat>, w: nat, m: nat) {
    forall f: seq<nat> :: Completion(v, f, m) ==> StrictlyFirst(f, w)
  }

  function At(v: seq<nat>, j: nat): nat {
    if j < |v| then v[j] else 0
  }

  /** No single count grows by more than all of them together. */
  lemma {:induction false} GrowthBound(v: seq<nat>, f: seq<nat>, j: nat)
    requires |v| <= |f| && (forall k :: 0 <= k < |v| ==> v[k] <= f[k]) && j < |f|
    ensures f[j] - At(v, j) <= Sum(f) - Sum(v) && Sum(v) <= Sum(f)
    decreases |f|
  {
    var n := |f| - 1;
    if |v| == |f| {
      if j < n { GrowthBound(v[..n], f[..n], j); } else { SumMonotone(v[..n], f[..n]); }
    } else {
      SumMonotone(v, f[..n]);
      if j < n { GrowthBound(v, f[..n], j); }
    }
  }

  lemma {:induction false} SumMonotone(v: seq<nat>, f: seq<nat>)
    requires |v| <= |f| && (forall k :: 0 <= k < |v| ==> v[k] <= f[k])
    ensures Sum(v) <= Sum(f)
    decreases |f|
  {
    if |f| == 0 { }
    else if |v| == |f| { SumMonotone(v[..|v| - 1], f[..|f| - 1]); }
    else { SumMonotone(v, f[..|f| - 1]); }
  }

  lemma {:induction false} SumUpdate(v: seq<nat>, j: nat, x: nat)
    requires j < |v|
    ensures Sum(v[j := x]) == Sum(v) - v[j] + x
  {
    var n := |v| - 1;
    if j == n { assert v[j := x][..n] == v[..n]; }
    else { SumUpdate(v[..n], j, x); assert v[j := x][..n] == v[..n][j := x]; }
  }

  lemma SumAppend(v: seq<nat>, x: nat)
    ensures Sum(v + [x]) == Sum(v) + x
  {
    assert (v + [x])[..|v|] == v;
  }

  /** A lead by more than the outstanding votes is exactly what makes the outcome final. */
  lemma SettledIffLeads(v: seq<nat>, w: nat, m: nat)
    requires w < |v|
    ensures Settled(v, w, m) <==> Leads(v, w, m)
  {
    if Leads(v, w, m) {
      forall f: seq<nat> | Completion(v, f, m) ensures StrictlyFirst(f, w) {
        forall j: nat | j < |f| && j != w ensures f[w] > f[j] { GrowthBound(v, f, j); }
      }
    } else if v[w] <= m {
      SumAppend(v, m);
      assert Completion(v, v + [m], m);
      assert !((v + [m])[w] > (v + [m])[|v|]);
    } else {
      var j: nat :| j < |v| && j != w && v[w] <= v[j] + m;
      SumUpdate(v, j, v[j] + m);
      var f := v[j := v[j] + m];
      assert Completion(v, f, m) && !(f[w] > f[j]);
    }
  }

  /** A reported winner is final, and is reported as soon as it is, once a block has been named. */
  lemma VerdictIsFinal(i: nat, n: nat, noBlock: nat, entries: seq<Entry>, w: nat)
    requires n / 2 <= i <= n && entries != [] && w <= |entries|
    ensures Settled(Values(noBlock, entries), w, n - i) ==>
      Verdict(i, n, noBlock, entries) == Some(Candidate(entries, w))
    ensures Verdict(i, n, noBlock, entries).Some? ==>
      exists k: nat ::
        && k <= |entries| && Settled(Values(noBlock, entries), k, n - i)
        && Verdict(i, n, noBlock, entries) == Some(Candidate(entries, k))
  {
    hide Settled;
    var v, m := Values(noBlock, entries), n - i;
    SettledIffLeads(v, w, m);
    if HasLeader(v, m) {
      var k := Leader(v, m);
      SettledIffLeads(v, k, m);
      if Leads(v, w, m) { LeaderUnique(v, w, k, m); }
    }
  }

  /** Without a named block the report is final only if "no block" outnumbers the missing replies. */
  lemma EmptyVerdictFinal(i: nat, n: nat, noBlock: nat)
    requires n / 2 <= i <= n
    ensures Verdict(i, n, noBlock, []) == Some(None)
    ensures Settled(Values(noBlock, []), 0, n - i) <==> noBlock > n - i
  {
    hide Settled;
    SettledIffLeads(Values(noBlock, []), 0, n - i);
  }

  /** With no block named, half of the replies end the request; here a later reply could still win. */
  lemma EmptyVerdictIsPremature()
    ensures Verdict(1, 2, 0, []) == Some(None) && !Settled(Values(0, []), 0, 1)
  {
    SettledIffLeads(Values(0, []), 0, 1);
  }

  // ------------------------------------------------------ the order of the entries

  lemma OccursTwice(s: seq<Entry>, a: nat, b: nat)
    requires a < b < |s| && s[a] == s[b]
    ensures multiset(s)[s[a]] >= 2
  {
    assert s == s[..b] + [s[b]] + s[b + 1..];
    assert s[..b][a] in multiset(s[..b]);
  }

  lemma OccursElsewhere(s: seq<Entry>, a: nat)
    requires a < |s| && multiset(s)[s[a]] >= 2
    ensures exists b :: 0 <= b < |s| && b != a && s[b] == s[a]
  {
    assert s == s[..a] + [s[a]] + s[a + 1..];
    if s[a] in s[..a] {
      var b :| 0 <= b < a && s[b] == s[a];
    } else {
      assert s[a] in multiset(s[a + 1..]);
      var b :| 0 <= b < |s| - a - 1 && s[a + 1..][b] == s[a];
      assert s[a + 1 + b] == s[a];
    }
  }

  lemma LeaderOnce(noBlock: nat, s: seq<Entry>, w: nat, m: nat)
    requires 0 < w <= |s| && Leads(Values(noBlock, s), w, m)
    ensures multiset(s)[s[w - 1]] < 2
  {
    var v := Values(noBlock, s);
    forall b: nat | b < |s| && b != w - 1 ensures s[b] != s[w - 1] {
      assert v[w] > v[b + 1] + m;
    }
    if multiset(s)[s[w - 1]] >= 2 { OccursElsewhere(s, w - 1); }
  }

  /** The leading entry occurs once, and leads wherever it is. */
  lemma LeadsAnywhere(noBlock: nat, s: seq<Entry>, t: seq<Entry>, w: nat, u: nat, m: nat)
    requires multiset(s) == multiset(t) && 0 < w <= |s| && 0 < u <= |t| && t[u - 1] == s[w - 1]
    requires Leads(Values(noBlock, s), w, m)
    ensures Leads(Values(noBlock, t), u, m)
  {
    var v := Values(noBlock, s);
    forall j: nat | j < |t| + 1 && j != u ensures v[w] > Values(noBlock, t)[j] + m {
      if j == 0 {
        assert v[w] > v[0] + m;
      } else {
        if t[j - 1] == s[w - 1] {
          OccursTwice(t, if j < u then j - 1 else u - 1, if j < u then u - 1 else j - 1);
          LeaderOnce(noBlock, s, w, m);
          assert false;
        }
        CountedIn(noBlock, s, t, j - 1);
      }
    }
  }

  lemma CountedIn(noBlock: nat, s: seq<Entry>, t: seq<Entry>, j: nat)
    requires multiset(s) == multiset(t) && j < |t|
    ensures exists b: nat :: b < |s| && s[b] == t[j] && Values(noBlock, s)[b + 1] == t[j].count
  {
    assert t[j] in multiset(t);
    var b :| 0 <= b < |s| && s[b] == t[j];
    assert Values(noBlock, s)[b + 1] == t[j].count;
  }

  lemma LeaderFound(noBlock: nat, s: seq<Entry>, t: seq<Entry>, w: nat, m: nat) returns (u: nat)
    requires multiset(s) == multiset(t) && w <= |s| && Leads(Values(noBlock, s), w, m)
    ensures u <= |t| && Leads(Values(noBlock, t), u, m) && Candidate(t, u) == Candidate(s, w)
  {
    if w == 0 {
      u := 0;
      forall j: nat | 0 < j <= |t| ensures noBlock > Values(noBlock, t)[j] + m { CountedIn(noBlock, s, t, j - 1); }
    } else {
      assert s[w - 1] in multiset(t);
      var j :| 0 <= j < |t| && t[j] == s[w - 1];
      u := j + 1;
      LeadsAnywhere(noBlock, s, t, w, u, m);
    }
  }

  /** The report does not depend on the order in which the blocks are looked at. */
  lemma VerdictInAnyOrder(i: nat, n: nat, noBlock: nat, s: seq<Entry>, t: seq<Entry>)
    requires i <= n && multiset(s) == multiset(t)
    ensures Verdict(i, n, noBlock, s) == Verdict(i, n, noBlock, t)
  {
    hide Leads, Values;
    assert |s| == |multiset(s)| == |multiset(t)| == |t|;
    var v, v', m := Values(noBlock, s), Values(noBlock, t), n - i;
    if HasLeader(v, m) {
      LeaderInRange(v, m);
      var u := LeaderFound(noBlock, s, t, Leader(v, m), m);
      LeaderUnique(v', u, Leader(v', m), m);
    } else if HasLeader(v', m) {
      LeaderInRange(v', m);
      var u := LeaderFound(noBlock, t, s, Leader(v', m), m);
      assert false;
    }
  }

  lemma LeaderInRange(v: seq<nat>, m: nat)
    requires HasLeader(v, m)
    ensures Leader(v, m) < |v|
  {}
}
