/** `matchRoutes(qRaw, limit = 8)`: the two-channel ranked matcher. The query
    is normalised; a numeric channel compares the route number with the query
    stripped of a leading `ruta` and `#`, a name channel compares the route
    name with the whole query; an entry keeps the better of the two scores,
    entries no channel accepts are dropped, the rest are sorted by score
    (descending) then label length (ascending) with a stable sort, and the
    first `limit` are returned. */
module Matcher {
  import opened Wrappers
  import opened Js
  import opened Normalize
  import opened Routes

  const DefaultLimit: nat := 8

  /** `s.startsWith(p)` */
  predicate StartsWith(s: string, p: string)
  {
    |p| <= |s| && s[..|p|] == p
  }

  /** `s.includes(p)` */
  predicate Includes(s: string, p: string)
  {
    StartsWith(s, p) || (s != [] && Includes(s[1..], p))
  }

  /** `q.replace(/^ruta\s*\/i, "")`: `ruta` in any letter case, then any
      white space. */
  function StripRutaPrefix(q: string): string
  {
    if |q| >= 4 && Lower(q[..4]) == "ruta" then TrimStart(q[4..]) else q
  }

  /** `.replace(/^#/, "")` */
  function StripHash(s: string): string
  {
    if s != [] && s[0] == '#' then s[1..] else s
  }

  /** The preprocessed query: `q`, `qNum` and `isNum`. */
  datatype Query = Query(q: string, qNum: string, isNum: bool)

  function ParseQuery(raw: string): (query: Query)
    ensures query.q == NormalizeStr(raw)
    ensures IsTrimmed(query.qNum)
    ensures query.isNum <==> query.qNum != "" && IsNumericLiteral(query.qNum)
  {
    var q := NormalizeStr(raw);
    var qNum := Trim(StripHash(StripRutaPrefix(q)));
    TrimSpec(StripHash(StripRutaPrefix(q)));
    Query(q, qNum, qNum != "" && IsNumericLiteral(qNum))
  }

  /** One channel: `exact` when the token equals the pattern, `prefix` when it
      starts with it, `infix` when it contains it, and -1 when it does not. */
  function Channel(token: string, pattern: string, exact: int, prefix: int, infix: int): int
  {
    if token == pattern then exact
    else if StartsWith(token, pattern) then prefix
    else if Includes(token, pattern) then infix
    else -1
  }

  function NumberScore(e: RouteEntry, query: Query): int
  {
    if query.isNum then Channel(e.nNum, query.qNum, 100, 80, 60) else -1
  }

  function NameScore(e: RouteEntry, query: Query): int
  {
    Channel(e.nName, query.q, 90, 70, 50)
  }

  /** The score of one index entry: the better channel, -1 when neither fires. */
  function Score(e: RouteEntry, query: Query): int
  {
    Max(NumberScore(e, query), NameScore(e, query))
  }

  /** What a score means: an entry scores at all exactly when its number token
      contains the numeric query (for a numeric query) or its name token
      contains the query; 100 is reserved for an exact number, 90 for an exact
      name that is not an exact number; no other value than the six channel
      constants and -1 occurs. */
  lemma ScoreMeaning(e: RouteEntry, query: Query)
    ensures var s := Score(e, query);
      && (s >= 0 <==> (query.isNum && Includes(e.nNum, query.qNum)) || Includes(e.nName, query.q))
      && (s == 100 <==> query.isNum && e.nNum == query.qNum)
      && (s == 90 <==> !(query.isNum && e.nNum == query.qNum) && e.nName == query.q)
      && s in {-1, 50, 60, 70, 80, 90, 100}
  {
    if e.nNum == query.qNum { assert StartsWith(e.nNum, query.qNum); }
    if e.nName == query.q { assert StartsWith(e.nName, query.q); }
  }

  // ---------------------------------------------------------------------
  // Scoring pass: `for (const r of routeIndex) { ... scored.push({ r, score }) }`
  // ---------------------------------------------------------------------

  /** A pushed `{ r, score }`, with the position of `r` in the index. */
  datatype Candidate = Candidate(pos: nat, entry: RouteEntry, score: int)

  predicate IsCandidateOf(c: Candidate, index: seq<RouteEntry>, query: Query)
  {
    c.pos < |index| && c.entry == index[c.pos] && c.score == Score(index[c.pos], query) && c.score >= 0
  }

  /** The `scored` array after the loop has visited the first `n` entries
      of `index`. */
  function ScoreUpTo(index: seq<RouteEntry>, query: Query, n: nat): (r: seq<Candidate>)
    requires n <= |index|
    ensures |r| <= n
  {
    if n == 0 then []
    else
      var rest := ScoreUpTo(index, query, n - 1);
      var s := Score(index[n - 1], query);
      if s >= 0 then rest + [Candidate(n - 1, index[n - 1], s)] else rest
  }

  /** The scoring pass keeps every one of the first `n` entries that has a
      non-negative score, with that score, once, in index order, and
      nothing else. */
  lemma {:induction false} ScoreUpToSpec(index: seq<RouteEntry>, query: Query, n: nat)
    requires n <= |index|
    ensures var r := ScoreUpTo(index, query, n);
      && (forall k :: 0 <= k < |r| ==> IsCandidateOf(r[k], index, query) && r[k].pos < n)
      && (forall k, l :: 0 <= k < l < |r| ==> r[k].pos < r[l].pos)
      && (forall p :: 0 <= p < n && Score(index[p], query) >= 0 ==>
            exists k :: 0 <= k < |r| && r[k].pos == p)
  {
    if n > 0 {
      var rest := ScoreUpTo(index, query, n - 1);
      var r := ScoreUpTo(index, query, n);
      ScoreUpToSpec(index, query, n - 1);
      forall p | 0 <= p < n && Score(index[p], query) >= 0
        ensures exists k :: 0 <= k < |r| && r[k].pos == p
      {
        if p < n - 1 {
          var k :| 0 <= k < |rest| && rest[k].pos == p;
          assert r[k] == rest[k];
        } else {
          assert r[|rest|].pos == p;
        }
      }
    }
  }

  function ScoreAll(index: seq<RouteEntry>, query: Query): seq<Candidate>
  {
    ScoreUpTo(index, query, |index|)
  }

  // ---------------------------------------------------------------------
  // `scored.sort((a, b) => b.score - a.score || a.r.label.length - b.r.label.length)`
  // Array.prototype.sort is stable (section 23.1.3.30 of ECMA-262); it is
  // modelled by insertion sort, which keeps tied elements in input order.
  // ---------------------------------------------------------------------

  function LabelLength(c: Candidate): nat
  {
    Utf16Length(c.entry.labelText)
  }

  /** The comparator: negative when `a` goes first. */
  function Compare(a: Candidate, b: Candidate): int
  {
    var d := b.score - a.score;
    if d != 0 then d else LabelLength(a) - LabelLength(b)
  }

  predicate SortedBy(xs: seq<Candidate>)
  {
    forall i, j :: 0 <= i < j < |xs| ==> Compare(xs[i], xs[j]) <= 0
  }

  lemma CompareTransitive(a: Candidate, b: Candidate, c: Candidate)
    requires Compare(a, b) <= 0 && Compare(b, c) <= 0
    ensures Compare(a, c) <= 0
  {
  }

  lemma LeAllOfPermutation(a: Candidate, xs: seq<Candidate>, zs: seq<Candidate>)
    requires forall z :: z in xs ==> Compare(a, z) <= 0
    requires multiset(zs) == multiset(xs)
    ensures forall z :: z in zs ==> Compare(a, z) <= 0
  {
    forall z | z in zs ensures Compare(a, z) <= 0 {
      assert z in multiset(zs);
    }
  }

  /** Insert `x` before the first element that does not sort strictly
      before it. */
  function Insert(x: Candidate, ys: seq<Candidate>): (r: seq<Candidate>)
    requires SortedBy(ys)
    ensures multiset(r) == multiset(ys) + multiset{x}
    ensures SortedBy(r)
    decreases |ys|
  {
    if ys == [] then [x]
    else if Compare(x, ys[0]) > 0 then
      var rest := Insert(x, ys[1..]);
      InsertAfterHead(x, ys, rest);
      [ys[0]] + rest
    else
      InsertAtHead(x, ys);
      [x] + ys
  }

  /** `x` sorts after the head: the head stays first. */
  lemma InsertAfterHead(x: Candidate, ys: seq<Candidate>, rest: seq<Candidate>)
    requires SortedBy(ys) && ys != [] && Compare(x, ys[0]) > 0
    requires multiset(rest) == multiset(ys[1..]) + multiset{x} && SortedBy(rest)
    ensures multiset([ys[0]] + rest) == multiset(ys) + multiset{x}
    ensures SortedBy([ys[0]] + rest)
  {
    assert ys == [ys[0]] + ys[1..];
    HeadBeforeTail(ys);
    LeAllOfPermutation(ys[0], ys[1..] + [x], rest);
    ConsSorted(ys[0], rest);
  }

  /** `x` does not sort after the head: it goes first. */
  lemma InsertAtHead(x: Candidate, ys: seq<Candidate>)
    requires SortedBy(ys) && ys != [] && Compare(x, ys[0]) <= 0
    ensures SortedBy([x] + ys)
  {
    HeadBeforeTail(ys);
    forall z | z in ys ensures Compare(x, z) <= 0 {
      CompareTransitive(x, ys[0], z);
    }
    ConsSorted(x, ys);
  }

  lemma HeadBeforeTail(ys: seq<Candidate>)
    requires SortedBy(ys) && ys != []
    ensures forall z :: z in ys ==> Compare(ys[0], z) <= 0
  {
    forall z | z in ys ensures Compare(ys[0], z) <= 0 {
      var j :| 0 <= j < |ys| && ys[j] == z;
      if j > 0 {
        assert Compare(ys[0], ys[j]) <= 0;
      }
    }
  }

  lemma ConsSorted(y: Candidate, rest: seq<Candidate>)
    requires SortedBy(rest)
    requires forall z :: z in rest ==> Compare(y, z) <= 0
    ensures SortedBy([y] + rest)
  {
    var r := [y] + rest;
    forall i, j | 0 <= i < j < |r| ensures Compare(r[i], r[j]) <= 0 {
      assert r[j] == rest[j - 1];
      if i > 0 {
        assert r[i] == rest[i - 1];
      } else {
        assert r[j] in rest;
      }
    }
  }

  /** The sorted array: the same elements, in comparator order. */
  function Sort(xs: seq<Candidate>): (r: seq<Candidate>)
    ensures multiset(r) == multiset(xs)
    ensures SortedBy(r)
  {
    if xs == [] then []
    else
      assert xs == [xs[0]] + xs[1..];
      Insert(xs[0], Sort(xs[1..]))
  }

  predicate PosIncreasing(xs: seq<Candidate>)
  {
    forall k, l :: 0 <= k < l < |xs| ==> xs[k].pos < xs[l].pos
  }

  /** Stability: elements the comparator ties keep their original order. */
  predicate TiesInOrder(xs: seq<Candidate>)
  {
    forall i, j :: 0 <= i < j < |xs| && Compare(xs[i], xs[j]) == 0 ==> xs[i].pos < xs[j].pos
  }

  lemma {:induction false} InsertKeepsTies(x: Candidate, ys: seq<Candidate>)
    requires SortedBy(ys) && TiesInOrder(ys)
    requires forall y :: y in ys ==> x.pos < y.pos
    ensures TiesInOrder(Insert(x, ys))
    decreases |ys|
  {
    if ys != [] && Compare(x, ys[0]) > 0 {
      TailInOrder(x, ys);
      InsertKeepsTies(x, ys[1..]);
      InsertAfterHeadKeepsTies(x, ys);
    } else if ys != [] {
      ConsTies(x, ys);
    }
  }

  /** The tail of a sorted, stable sequence is sorted and stable. */
  lemma TailInOrder(x: Candidate, ys: seq<Candidate>)
    requires SortedBy(ys) && TiesInOrder(ys) && ys != []
    requires forall y :: y in ys ==> x.pos < y.pos
    ensures SortedBy(ys[1..]) && TiesInOrder(ys[1..])
    ensures forall y :: y in ys[1..] ==> x.pos < y.pos
  {
  }

  /** The step of `InsertKeepsTies` where `x` goes past the head. */
  lemma InsertAfterHeadKeepsTies(x: Candidate, ys: seq<Candidate>)
    requires SortedBy(ys) && TiesInOrder(ys) && ys != []
    requires Compare(x, ys[0]) > 0
    requires SortedBy(ys[1..]) && TiesInOrder(Insert(x, ys[1..]))
    ensures TiesInOrder(Insert(x, ys))
  {
    var rest := Insert(x, ys[1..]);
    assert Insert(x, ys) == [ys[0]] + rest;
    HeadTiesFirst(ys);
    TiesAfterInsert(ys[0], x, ys[1..], rest);
    ConsTies(ys[0], rest);
  }

  /** In a stable order, whatever ties with the head comes from later in
      the input. */
  lemma HeadTiesFirst(ys: seq<Candidate>)
    requires TiesInOrder(ys) && ys != []
    ensures forall z :: z in ys[1..] && Compare(ys[0], z) == 0 ==> ys[0].pos < z.pos
  {
    forall z | z in ys[1..] && Compare(ys[0], z) == 0 ensures ys[0].pos < z.pos {
      var t :| 0 <= t < |ys[1..]| && ys[1..][t] == z;
      assert ys[t + 1] == z;
    }
  }

  /** Inserting an `x` that sorts strictly after `y` adds nothing that ties
      with `y`. */
  lemma TiesAfterInsert(y: Candidate, x: Candidate, zs: seq<Candidate>, rest: seq<Candidate>)
    requires Compare(x, y) > 0
    requires multiset(rest) == multiset(zs) + multiset{x}
    requires forall z :: z in zs && Compare(y, z) == 0 ==> y.pos < z.pos
    ensures forall z :: z in rest && Compare(y, z) == 0 ==> y.pos < z.pos
  {
    forall z | z in rest && Compare(y, z) == 0 ensures y.pos < z.pos {
      assert z in multiset(rest);
      assert z != x;
      assert z in multiset(zs);
    }
  }

  lemma ConsTies(y: Candidate, rest: seq<Candidate>)
    requires TiesInOrder(rest)
    requires forall z :: z in rest && Compare(y, z) == 0 ==> y.pos < z.pos
    ensures TiesInOrder([y] + rest)
  {
    var r := [y] + rest;
    forall i, j | 0 <= i < j < |r| && Compare(r[i], r[j]) == 0 ensures r[i].pos < r[j].pos {
      assert r[j] == rest[j - 1];
      if i > 0 {
        assert r[i] == rest[i - 1];
      } else {
        assert r[j] in rest;
      }
    }
  }

  /** Sorting a sequence given in position order is stable. */
  lemma {:induction false} SortKeepsTies(xs: seq<Candidate>)
    requires PosIncreasing(xs)
    ensures TiesInOrder(Sort(xs))
  {
    if xs != [] {
      var tail := Sort(xs[1..]);
      SortKeepsTies(xs[1..]);
      forall y | y in tail ensures xs[0].pos < y.pos {
        assert y in multiset(tail);
        assert y in xs[1..];
      }
      InsertKeepsTies(xs[0], tail);
    }
  }

  // ---------------------------------------------------------------------
  // The result: `scored.slice(0, limit).map((x) => x.r)`
  // ---------------------------------------------------------------------

  /** The scored entries `matchRoutes` keeps for a parsed query, in the
      order it returns them. */
  function Ranked(query: Query, index: seq<RouteEntry>, limit: nat): seq<Candidate>
  {
    if query.q == "" then []
    else
      var all := Sort(ScoreAll(index, query));
      all[..Min(limit, |all|)]
  }

  function Entries(cs: seq<Candidate>): (r: seq<RouteEntry>)
    ensures |r| == |cs| && forall k :: 0 <= k < |cs| ==> r[k] == cs[k].entry
  {
    seq(|cs|, k requires 0 <= k < |cs| => cs[k].entry)
  }

  /** The value of `matchRoutes(raw, limit)` over `index`. */
  function Matches(raw: string, index: seq<RouteEntry>, limit: nat): seq<RouteEntry>
  {
    Entries(Ranked(ParseQuery(raw), index, limit))
  }

  /** `a` is returned before `b`: higher score, or the same score and a
      shorter label, or both equal and earlier in the index. */
  predicate Precedes(a: Candidate, b: Candidate)
  {
    || a.score > b.score
    || (a.score == b.score && LabelLength(a) < LabelLength(b))
    || (a.score == b.score && LabelLength(a) == LabelLength(b) && a.pos < b.pos)
  }

  lemma ScoreAllInOrder(index: seq<RouteEntry>, query: Query)
    ensures PosIncreasing(ScoreAll(index, query))
    ensures forall c :: c in ScoreAll(index, query) ==> IsCandidateOf(c, index, query)
  {
    var r := ScoreAll(index, query);
    ScoreUpToSpec(index, query, |index|);
    assert r == ScoreUpTo(index, query, |index|);
    forall c | c in r ensures IsCandidateOf(c, index, query) {
      var k :| 0 <= k < |r| && r[k] == c;
    }
  }

  lemma SortedScores(index: seq<RouteEntry>, query: Query)
    ensures var all := Sort(ScoreAll(index, query));
      && SortedBy(all) && TiesInOrder(all)
      && forall k :: 0 <= k < |all| ==> IsCandidateOf(all[k], index, query)
  {
    var scored := ScoreAll(index, query);
    var all := Sort(scored);
    ScoreAllInOrder(index, query);
    SortKeepsTies(scored);
    forall k | 0 <= k < |all| ensures IsCandidateOf(all[k], index, query) {
      assert all[k] in multiset(all);
      assert all[k] in scored;
    }
  }

  /** Bounds: nothing for a query that normalises to the empty token;
      otherwise at most `limit` entries, each an index entry some channel
      accepts, carrying that entry's score, and no entry twice. */
  lemma RankedBounds(query: Query, index: seq<RouteEntry>, limit: nat)
    ensures var r := Ranked(query, index, limit);
      && (query.q == "" ==> r == [])
      && |r| <= limit
      && (forall k :: 0 <= k < |r| ==> IsCandidateOf(r[k], index, query))
      && (forall k, l :: 0 <= k < l < |r| ==> r[k].pos != r[l].pos)
  {
    if query.q != "" {
      SortedScores(index, query);
      RankedOrder(query, index, limit);
    }
  }

  /** Ordering: every returned entry precedes the ones after it, that is
      scores never increase, equal scores never have a longer label first,
      and full ties keep index order. */
  lemma RankedOrder(query: Query, index: seq<RouteEntry>, limit: nat)
    ensures var r := Ranked(query, index, limit);
      forall k, l :: 0 <= k < l < |r| ==> Precedes(r[k], r[l])
  {
    if query.q != "" {
      SortedScores(index, query);
    }
  }

  /** In a sorted and stable sequence each element precedes the later ones. */
  lemma SortedPrecedes(all: seq<Candidate>, k: nat, m: nat)
    requires SortedBy(all) && TiesInOrder(all)
    requires k < m < |all|
    ensures Precedes(all[k], all[m])
  {
  }

  /** An element of a sorted, stable sequence is either in a prefix of it or
      preceded by every element of that prefix, which is then full. */
  lemma PrefixHoldsOrPrecedes(all: seq<Candidate>, limit: nat, m: nat)
    requires SortedBy(all) && TiesInOrder(all) && m < |all|
    ensures var r := all[..Min(limit, |all|)];
      || (0 <= m < |r| && r[m] == all[m])
      || (|r| == limit && forall k :: 0 <= k < |r| ==> Precedes(r[k], all[m]))
  {
    var r := all[..Min(limit, |all|)];
    if m >= |r| {
      forall k | 0 <= k < |r| ensures Precedes(r[k], all[m]) {
        SortedPrecedes(all, k, m);
      }
    }
  }

  /** A prefix of a sorted, stable sequence is sorted and stable. */
  lemma PrefixSorted(all: seq<Candidate>, n: nat)
    requires SortedBy(all) && TiesInOrder(all) && n <= |all|
    ensures SortedBy(all[..n]) && TiesInOrder(all[..n])
  {
    var r := all[..n];
    forall i, j | 0 <= i < j < |r| ensures Compare(r[i], r[j]) <= 0 {
      assert r[i] == all[i] && r[j] == all[j];
    }
    forall i, j | 0 <= i < j < |r| && Compare(r[i], r[j]) == 0 ensures r[i].pos < r[j].pos {
      assert r[i] == all[i] && r[j] == all[j];
    }
  }

  /** A prefix holds no more of each element than the whole. */
  lemma PrefixSubMultiset(all: seq<Candidate>, n: nat)
    requires n <= |all|
    ensures multiset(all[..n]) <= multiset(all)
  {
    assert all == all[..n] + all[n..];
  }

  /** A sorted candidate that a prefix of the sorted sequence leaves out is
      preceded by every element of that prefix. */
  lemma LeftOutIsPreceded(scored: seq<Candidate>, limit: nat, c: Candidate)
    requires PosIncreasing(scored)
    requires var all := Sort(scored); c in scored && c !in all[..Min(limit, |all|)]
    ensures var all := Sort(scored); var ranked := all[..Min(limit, |all|)];
      forall k :: 0 <= k < |ranked| ==> Precedes(ranked[k], c)
  {
    var all := Sort(scored);
    SortKeepsTies(scored);
    assert c in multiset(scored);
    assert c in all;
    var m :| 0 <= m < |all| && all[m] == c;
    PrefixHoldsOrPrecedes(all, limit, m);
  }

  /** Completeness: an index entry that some channel accepts is returned,
      unless `limit` entries that each precede it fill the result. */
  lemma RankedComplete(query: Query, index: seq<RouteEntry>, limit: nat, p: nat)
    requires p < |index|
    requires query.q != "" && Score(index[p], query) >= 0
    ensures var r := Ranked(query, index, limit);
      var c := Candidate(p, index[p], Score(index[p], query));
      || (exists k :: 0 <= k < |r| && r[k] == c)
      || (|r| == limit && forall k :: 0 <= k < |r| ==> Precedes(r[k], c))
  {
    var scored := ScoreAll(index, query);
    var all := Sort(scored);
    var c := Candidate(p, index[p], Score(index[p], query));
    ScoreUpToSpec(index, query, |index|);
    SortedScores(index, query);
    var k0 :| 0 <= k0 < |scored| && scored[k0].pos == p;
    assert IsCandidateOf(scored[k0], index, query);
    assert scored[k0] == c;
    assert c in multiset(all);
    var m :| 0 <= m < |all| && all[m] == c;
    PrefixHoldsOrPrecedes(all, limit, m);
  }

  /** An exact number match outranks every entry that is not one: when such
      an entry is returned, the exact number match is returned before it. */
  lemma ExactNumberFirst(query: Query, index: seq<RouteEntry>, limit: nat, p: nat, k2: nat)
    requires query.q != ""
    requires p < |index| && query.isNum && index[p].nNum == query.qNum
    requires k2 < |Ranked(query, index, limit)|
    requires Ranked(query, index, limit)[k2].entry.nNum != query.qNum
    ensures exists k1 :: 0 <= k1 < k2 && Ranked(query, index, limit)[k1].pos == p
  {
    var r := Ranked(query, index, limit);
    RankedBounds(query, index, limit);
    RankedOrder(query, index, limit);
    ScoreMeaning(index[p], query);
    ScoreMeaning(r[k2].entry, query);
    RankedComplete(query, index, limit, p);
    var c := Candidate(p, index[p], 100);
    var k1 :| 0 <= k1 < |r| && r[k1] == c;
    assert IsCandidateOf(r[k2], index, query);
    assert r[k2].score < 100;
    assert !Precedes(r[k2], r[k1]);
    assert k1 != k2;
  }

  /** A route whose number and name both normalise to the empty token (its
      label is the placeholder) is never returned. */
  lemma UnnamedRouteNeverMatches(query: Query, index: seq<RouteEntry>, limit: nat, k: nat)
    requires query.isNum ==> query.qNum != ""
    requires k < |Ranked(query, index, limit)|
    ensures Ranked(query, index, limit)[k].entry.nNum != "" || Ranked(query, index, limit)[k].entry.nName != ""
  {
    var e := Ranked(query, index, limit)[k].entry;
    RankedBounds(query, index, limit);
    ScoreMeaning(e, query);
    if e.nNum == "" && e.nName == "" {
      EmptyIncludesOnlyEmpty(query.q);
      EmptyIncludesOnlyEmpty(query.qNum);
    }
  }

  lemma EmptyIncludesOnlyEmpty(p: string)
    ensures Includes("", p) <==> p == ""
  {
  }

  // ---------------------------------------------------------------------
  // Typical queries: a route number, with or without the word "ruta".
  // ---------------------------------------------------------------------

  /** A run of decimal digits is a numeric query for itself. */
  lemma ParseDigits(d: string)
    requires IsDecimalDigits(d)
    ensures ParseQuery(d) == Query(d, d, true)
  {
    NormalizeOfPlain(d);
    if |d| >= 4 {
      LowerHasNoCapital(d[..4]);
      assert Lower(d[..4])[0] == d[0];
    }
    DigitsAreNumeric(d);
    TrimOfTrimmed(d);
  }

  /** The `ruta` prefix and the white space after it come off before a
      number. */
  lemma StripRutaBeforeDigits(d: string)
    requires IsDecimalDigits(d)
    ensures StripRutaPrefix("ruta " + d) == d
  {
    var q := "ruta " + d;
    assert q[..4] == "ruta";
    assert q[4..] == " " + d;
    assert Lower("ruta") == "ruta";
    assert (" " + d)[1..] == d;
    assert TrimStart(d) == d;
  }

  /** "ruta " followed by a route number queries that number. */
  lemma ParseRutaNumber(d: string)
    requires IsDecimalDigits(d)
    ensures ParseQuery("ruta " + d) == Query("ruta " + d, d, true)
  {
    var q := "ruta " + d;
    assert q[0] == 'r' && q[|q| - 1] == d[|d| - 1];
    assert forall c :: c in q ==> c in "ruta " || c in d;
    NormalizeOfPlain(q);
    StripRutaBeforeDigits(d);
    assert StripHash(d) == d;
    NumericQuery(q, d);
  }

  /** A leading `#` comes off a route number, as `ruta` does. */
  lemma ParseHashNumber(d: string)
    requires IsDecimalDigits(d)
    ensures ParseQuery("#" + d) == Query("#" + d, d, true)
  {
    var q := "#" + d;
    assert q[0] == '#' && q[|q| - 1] == d[|d| - 1];
    assert forall c :: c in q ==> c == '#' || c in d;
    NormalizeOfPlain(q);
    StripHashBeforeDigits(d);
    NumericQuery(q, d);
  }

  /** An already normal query whose number part is a run of digits is a
      numeric query for those digits. */
  lemma NumericQuery(raw: string, d: string)
    requires NormalizeStr(raw) == raw && IsDecimalDigits(d)
    requires StripHash(StripRutaPrefix(raw)) == d
    ensures ParseQuery(raw) == Query(raw, d, true)
  {
    DigitsAreNumeric(d);
    TrimOfTrimmed(d);
  }

  /** A query starting with `#` is no `ruta` query; the `#` then comes off. */
  lemma StripHashBeforeDigits(d: string)
    ensures StripHash(StripRutaPrefix("#" + d)) == d
  {
    var q := "#" + d;
    if |q| >= 4 {
      LowerHasNoCapital(q[..4]);
      assert Lower(q[..4])[0] == '#';
    }
    assert q[1..] == d;
  }

  /** When only the entry at `p` scores, the scoring pass pushes that entry
      alone, once the loop has passed it. */
  lemma {:induction false} ScoreUpToOnly(query: Query, index: seq<RouteEntry>, n: nat, p: nat)
    requires n <= |index| && p < |index| && Score(index[p], query) >= 0
    requires forall i :: 0 <= i < |index| && i != p ==> Score(index[i], query) < 0
    ensures ScoreUpTo(index, query, n) == if p < n then [Candidate(p, index[p], Score(index[p], query))] else []
  {
    if n > 0 {
      ScoreUpToOnly(query, index, n - 1, p);
    }
  }

  /** A query that exactly one index entry answers returns that entry alone,
      with its score. */
  lemma OnlyMatch(query: Query, index: seq<RouteEntry>, limit: nat, p: nat)
    requires query.q != "" && limit > 0 && p < |index| && Score(index[p], query) >= 0
    requires forall i :: 0 <= i < |index| && i != p ==> Score(index[i], query) < 0
    ensures Ranked(query, index, limit) == [Candidate(p, index[p], Score(index[p], query))]
  {
    var c := Candidate(p, index[p], Score(index[p], query));
    ScoreUpToOnly(query, index, |index|, p);
    assert Sort([c]) == Insert(c, Sort([]));
  }

  /** When a numeric query names the number of exactly one route, that
      route is returned first. */
  lemma UniqueNumberFirst(query: Query, index: seq<RouteEntry>, limit: nat, p: nat)
    requires query.q != "" && query.isNum && limit > 0
    requires p < |index| && index[p].nNum == query.qNum
    requires forall i :: 0 <= i < |index| && i != p ==> index[i].nNum != query.qNum
    ensures var r := Ranked(query, index, limit);
      r != [] && r[0] == Candidate(p, index[p], 100)
  {
    var r := Ranked(query, index, limit);
    ScoreMeaning(index[p], query);
    RankedComplete(query, index, limit, p);
    RankedBounds(query, index, limit);
    RankedOrder(query, index, limit);
    assert r != [];
    ScoreMeaning(r[0].entry, query);
    assert IsCandidateOf(r[0], index, query);
    assert r[0].pos == p;
  }

  /** Typing "ruta" and a route number shows that route first. */
  lemma RutaNumberFindsRoute(d: string, index: seq<RouteEntry>, p: nat)
    requires IsDecimalDigits(d)
    requires p < |index| && index[p].nNum == d
    requires forall i :: 0 <= i < |index| && i != p ==> index[i].nNum != d
    ensures var r := Matches("ruta " + d, index, DefaultLimit);
      r != [] && r[0] == index[p]
  {
    ParseRutaNumber(d);
    UniqueNumberFirst(ParseQuery("ruta " + d), index, DefaultLimit, p);
  }

  /** Typing a route number shows that route first. */
  lemma DigitsFindRoute(d: string, index: seq<RouteEntry>, p: nat)
    requires IsDecimalDigits(d)
    requires p < |index| && index[p].nNum == d
    requires forall i :: 0 <= i < |index| && i != p ==> index[i].nNum != d
    ensures var r := Matches(d, index, DefaultLimit);
      r != [] && r[0] == index[p]
  {
    ParseDigits(d);
    UniqueNumberFirst(ParseQuery(d), index, DefaultLimit, p);
  }

  // ---------------------------------------------------------------------
  // The function itself, statement by statement.
  // ---------------------------------------------------------------------

  /** The body of the scoring loop for one index entry `e`. */
  method ScoreEntry(e: RouteEntry, q: string, qNum: string, isNum: bool) returns (score: int)
    ensures score == Score(e, Query(q, qNum, isNum))
  {
    score := -1;
    if isNum {
      if e.nNum == qNum { score := 100; }
      else if StartsWith(e.nNum, qNum) { score := 80; }
      else if Includes(e.nNum, qNum) { score := 60; }
    }
    if e.nName == q { score := Max(score, 90); }
    else if StartsWith(e.nName, q) { score := Max(score, 70); }
    else if Includes(e.nName, q) { score := Max(score, 50); }
  }

  /** The scoring pass of `matchRoutes`: one `scored.push` per index entry
      with a non-negative score. */
  method ScorePass(index: seq<RouteEntry>, q: string, qNum: string, isNum: bool)
    returns (scored: seq<Candidate>)
    ensures scored == ScoreAll(index, Query(q, qNum, isNum))
  {
    scored := [];
    for i := 0 to |index|
      invariant scored == ScoreUpTo(index, Query(q, qNum, isNum), i)
    {
      var e := index[i];
      var score := ScoreEntry(e, q, qNum, isNum);
      if score >= 0 {
        scored := scored + [Candidate(i, e, score)];
      }
    }
  }

  /** `matchRoutes(qRaw, limit)` over `index`. */
  method MatchRoutes(raw: string, index: seq<RouteEntry>, limit: nat) returns (r: seq<RouteEntry>)
    ensures r == Matches(raw, index, limit)
  {
    var q := NormalizeStr(raw);
    if q == "" {
      return [];
    }
    var qNum := Trim(StripHash(StripRutaPrefix(q)));
    var isNum := qNum != "" && IsNumericLiteral(qNum);
    var scored := ScorePass(index, q, qNum, isNum);
    assert Query(q, qNum, isNum) == ParseQuery(raw);
    ScoreAllInOrder(index, ParseQuery(raw));
    var ranked := TopK(scored, limit);
    r := Entries(ranked);
  }

  /** `scored.sort(...)` followed by `.slice(0, limit)`: the best `limit`
      candidates, best first, ties in input order. */
  method TopK(scored: seq<Candidate>, limit: nat) returns (ranked: seq<Candidate>)
    requires PosIncreasing(scored)
    ensures SortedBy(ranked) && TiesInOrder(ranked)
    ensures |ranked| == Min(limit, |scored|)
    ensures multiset(ranked) <= multiset(scored)
    ensures forall c :: c in scored && c !in ranked ==>
      forall k :: 0 <= k < |ranked| ==> Precedes(ranked[k], c)
    ensures var all := Sort(scored); ranked == all[..Min(limit, |all|)]
  {
    var all := Sort(scored);
    ranked := all;
    if limit < |ranked| {
      ranked := ranked[..limit];
    }
    assert ranked == all[..Min(limit, |all|)];
    SortKeepsTies(scored);
    PrefixSorted(all, |ranked|);
    PrefixSubMultiset(all, |ranked|);
    assert |all| == |scored| by {
      assert |multiset(all)| == |multiset(scored)|;
    }
    forall c | c in scored && c !in ranked
      ensures forall k :: 0 <= k < |ranked| ==> Precedes(ranked[k], c)
    {
      LeftOutIsPreceded(scored, limit, c);
    }
  }
}
