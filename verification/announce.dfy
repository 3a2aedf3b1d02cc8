/** How a light client and a server narrow down the height where their chains part. */
module Announce {
  import opened PowersOfTwo

  type Hash = int

  const MAX_GAP: nat := 256      // MaxGapForAnnounce
  const MIN_CACHED: nat := 256   // MinHashesCached
  const U64: nat := 0x1_0000_0000_0000_0000

  /** Canonical hashes by height, from the genesis block on. */
  type Chain = seq<Hash>

  /** The chains agree exactly up to height f. */
  ghost predicate Forks(s: Chain, c: Chain, f: nat) {
    && f < |s| && f < |c| && (forall i :: 0 <= i <= f ==> s[i] == c[i])
    && (forall i :: f < i < |s| && i < |c| ==> s[i] != c[i])
  }

  /** The announced heights go strictly down from end to begin, and no step is larger than about half the way. */
  ghost predicate Announces(begin: nat, end: nat, nums: seq<nat>) {
    && |nums| > 0 && nums[0] == end && nums[|nums| - 1] == begin
    && (forall i :: 0 < i < |nums| ==> nums[i] < nums[i - 1] && 2 * (nums[i - 1] - nums[i]) <= end - begin + 1)
  }

  lemma TwoTimes16(k: nat)
    ensures Two(k + 4) == 16 * Two(k)
  {
    assert Two(k + 4) == 2 * Two(k + 3) && Two(k + 3) == 2 * Two(k + 2) && Two(k + 2) == 2 * Two(k + 1);
  }

  lemma TwoOf64()
    ensures Two(64) == U64
  {
    assert Two(0) == 1;
    TwoTimes16(0);
    TwoTimes16(4);
    TwoTimes16(8);
    TwoTimes16(12);
    TwoTimes16(16);
    TwoTimes16(20);
    TwoTimes16(24);
    TwoTimes16(28);
    TwoTimes16(32);
    TwoTimes16(36);
    TwoTimes16(40);
    TwoTimes16(44);
    TwoTimes16(48);
    TwoTimes16(52);
    TwoTimes16(56);
    TwoTimes16(60);
  }

  /** The height announced for the k-th power of two: end - (2^k - 1), but not below begin. */
  function HeightAt(begin: nat, end: nat, k: nat): nat {
    if end > Two(k) - 1 && end - (Two(k) - 1) >= begin then end - (Two(k) - 1) else begin
  }

  /** The step to the next power: strictly down, by at most half of what lies between end and begin. */
  lemma StepHalves(begin: nat, end: nat, k: nat)
    requires begin <= end && HeightAt(begin, end, k) > begin
    ensures var a, b := HeightAt(begin, end, k), HeightAt(begin, end, k + 1);
      begin <= b < a && 2 * (a - b) <= end - begin + 1
  {
  }

  /** The 64-bit counter holds the k-th power of two, which wraps to 0 at 2^64. */
  ghost predicate Counts(k: nat, power2: nat) {
    k <= 64 && power2 == if k == 64 then 0 else Two(k)
  }

  lemma TwoBelow64(k: nat)
    requires k < 64
    ensures 2 * Two(k) == Two(k + 1) <= U64 && (Two(k + 1) == U64 <==> k == 63)
  {
    TwoOf64();
    TwoMonotone(k + 1, 64);
    if k < 63 {
      TwoMonotone(k + 1, 63);
      assert Two(64) == 2 * Two(63);
    }
  }

  /** Doubling the counter gives the next power, also when it wraps to 0; and 0 - 1 is still 2^64 - 1. */
  lemma Counter(k: nat, power2: nat)
    requires Counts(k, power2)
    ensures power2 < U64 && (power2 - 1) % U64 == Two(k) - 1
    ensures k < 64 ==> Counts(k + 1, (power2 * 2) % U64)
  {
    TwoOf64();
    if k < 64 { TwoBelow64(k); }
  }

  lemma HeightBounds(begin: nat, end: nat, k: nat)
    requires end < U64
    ensures begin <= HeightAt(begin, end, k) && (HeightAt(begin, end, k) <= end || HeightAt(begin, end, k) == begin)
    ensures k == 0 ==> end <= HeightAt(begin, end, k)
    ensures k == 64 ==> HeightAt(begin, end, k) == begin
  {
    TwoOf64();
    assert Two(0) == 1;
  }

  /** The heights of an announcement: one for each power of two, down to the first one that is at begin. */
  ghost predicate Powers(begin: nat, end: nat, nums: seq<nat>) {
    && |nums| > 0 && (forall i :: 0 <= i < |nums| ==> nums[i] == HeightAt(begin, end, i))
    && (forall i :: 0 <= i < |nums| - 1 ==> nums[i] != begin) && nums[|nums| - 1] == begin
  }

  lemma PowersAnnounce(begin: nat, end: nat, nums: seq<nat>)
    requires begin <= end && Powers(begin, end, nums)
    ensures Announces(begin, end, nums)
  {
    forall i | 0 < i < |nums| ensures nums[i] < nums[i - 1] && 2 * (nums[i - 1] - nums[i]) <= end - begin + 1 {
      StepHalves(begin, end, i - 1);
    }
    assert Two(0) == 1;
  }

  datatype Announcement = NoBlock | Announcement(nums: seq<nat>, hashes: seq<Hash>)

  function EndOf(s: Chain, end: nat): int {
    if end == 0 then |s| - 1 else end
  }

  /** What a server with chain s announces for a query. */
  ghost predicate Answer(s: Chain, begin: nat, end: nat, nums: seq<nat>, hashes: seq<Hash>)
    requires |s| > 0
  {
    && Powers(begin, EndOf(s, end), nums) && |hashes| == |nums|
    && forall i :: 0 <= i < |nums| ==> nums[i] < |s| && hashes[i] == s[nums[i]]
  }

  /** One turn of the loop of sendAnnounce: the next height, not below begin. */
  method NextHeight(begin: nat, end: nat, power2: nat, ghost k: nat) returns (curNum: nat)
    requires Counts(k, power2)
    ensures curNum == HeightAt(begin, end, k)
  {
    Counter(k, power2);
    var idx := (power2 - 1) % U64;
    curNum := begin;
    if end > idx {
      curNum := end - idx;
      if curNum < begin {
        curNum := begin;
      }
    }
  }

  method NextPower(power2: nat, ghost k: nat) returns (doubled: nat)
    requires Counts(k, power2) && k < 64
    ensures Counts(k + 1, doubled)
  {
    Counter(k, power2);
    doubled := (power2 * 2) % U64;
  }

  /** sendAnnounce with its doubling 64-bit counter; `end0` 0 stands for the head. */
  method SendAnnounce(s: Chain, begin: nat, end0: nat) returns (r: Announcement)
    requires 0 < |s| <= U64 && begin < U64 && end0 < U64
    ensures r.NoBlock? <==> begin >= |s| || end0 >= |s|
    ensures r.Announcement? ==> Answer(s, begin, end0, r.nums, r.hashes)
  {
    var end := if end0 == 0 then |s| - 1 else end0;
    var nums: seq<nat>, hashes: seq<Hash> := [], [];
    var power2 := 1;
    ghost var k := 0;
    assert Two(0) == 1;
    while true
      invariant Counts(k, power2) && |nums| == |hashes| == k
      invariant k > 0 ==> begin < |s| && end0 < |s|
      invariant forall i :: 0 <= i < k ==> nums[i] < |s| && hashes[i] == s[nums[i]]
      invariant forall i :: 0 <= i < k ==> nums[i] == HeightAt(begin, end, i) && nums[i] != begin
      decreases 65 - k
    {
      HeightBounds(begin, end, k);
      var curNum := NextHeight(begin, end, power2, k);
      if curNum >= |s| {
        return NoBlock;
      }
      nums, hashes := nums + [curNum], hashes + [s[curNum]];
      if curNum == begin || |nums| >= MAX_GAP {
        break;
      }
      power2 := NextPower(power2, k);
      k := k + 1;
    }
    return Announcement(nums, hashes);
  }

  // ---------- the client ----------

  datatype Message = Message(magic: int, td: int, head: Hash, headNum: nat, nums: seq<nat>, hashes: seq<Hash>)

  /** What the client does next: nothing, another announce query, or a request for hashes from a height on. */
  datatype Action = Ignored | Settled | Query(begin: nat, end: nat) | Sync(start: nat)

  /** The local hash at a height: of the chain, or of the cached part of it. */
  datatype Local = Local(begin: nat, hashes: seq<Hash>)

  predicate Matches(l: Local, num: nat, hash: Hash) {
    l.begin <= num < l.begin + |l.hashes| && l.hashes[num - l.begin] == hash
  }

  /** i is the first position that matches, or past the end. */
  ghost predicate FirstAt(l: Local, nums: seq<nat>, hashes: seq<Hash>, i: nat)
    requires |nums| == |hashes|
  {
    && i <= |nums| && (i < |nums| ==> Matches(l, nums[i], hashes[i]))
    && forall j :: 0 <= j < i ==> !Matches(l, nums[j], hashes[j])
  }

  /** The search of handleAnnounce: the first announced height whose hash is the local one. */
  method FirstMatch(l: Local, nums: seq<nat>, hashes: seq<Hash>) returns (i: nat)
    requires |nums| == |hashes|
    ensures FirstAt(l, nums, hashes, i)
  {
    i := 0;
    while i < |nums| && !Matches(l, nums[i], hashes[i])
      invariant i <= |nums| && forall j :: 0 <= j < i ==> !Matches(l, nums[j], hashes[j])
    {
      i := i + 1;
    }
  }

  /** The difference of two 64-bit heights. */
  function Minus(a: nat, b: nat): int {
    if a >= b then a - b else a - b + U64
  }

  /** Enough hashes are asked for to survive a short fork. */
  function StartOf(headNum: nat, start: nat): nat {
    if Minus(headNum, start) < MIN_CACHED then (if headNum > MIN_CACHED then headNum - MIN_CACHED else 0) else start
  }

  /** What the client does about the match at position i of an announcement. */
  function FirstAction(headNum: nat, nums: seq<nat>, i: nat): Action {
    if i >= |nums| then Settled
    else if i > 0 && Minus(nums[i - 1], nums[i]) > MAX_GAP then Query(nums[i], nums[i - 1])
    else Sync(StartOf(headNum, nums[i]))
  }

  /** An announcement of another round than the one under way. */
  predicate Foreign(curSyncMagic: int, msg: Message) {
    curSyncMagic != 0 && curSyncMagic != msg.magic
  }

  class LightPeer {
    var curSyncMagic: int
    var td: int
    var head: Hash
    var headBlockNum: nat
    var blockHashArr: seq<Hash>
    var blockNumBegin: nat

    constructor ()
      ensures curSyncMagic == 0 && blockHashArr == []
    {
      curSyncMagic, td, head, headBlockNum, blockHashArr, blockNumBegin := 0, 0, 0, 0, [], 0;
    }

    /** handleAnnounce without cached hashes: find the nearest sync point, ask again if it is far from the next one
        up. */
    method HandleFirst(msg: Message, c: Chain) returns (a: Action, ghost i: nat)
      requires |msg.nums| == |msg.hashes| > 1
      modifies this`curSyncMagic
      ensures FirstAt(Local(0, c), msg.nums, msg.hashes, i) && a == FirstAction(headBlockNum, msg.nums, i)
      ensures curSyncMagic == if i < |msg.nums| then old(curSyncMagic) else 0
    {
      var k := FirstMatch(Local(0, c), msg.nums, msg.hashes);
      i := k;
      if k == |msg.nums| {
        curSyncMagic := 0;
        a := Settled;
      } else if k != 0 && Minus(msg.nums[k - 1], msg.nums[k]) > MAX_GAP {
        a := Query(msg.nums[k], msg.nums[k - 1]);
      } else {
        a := Sync(StartOf(headBlockNum, msg.nums[k]));
      }
    }

    /** handleAnnounce with cached hashes: the highest announced height that is cached and equal. */
    method HandleCached(msg: Message) returns (a: Action, ghost i: nat)
      requires |msg.nums| == |msg.hashes| > 1
      modifies this`curSyncMagic
      ensures FirstAt(Local(blockNumBegin, blockHashArr), msg.nums, msg.hashes, i)
      ensures a == if i < |msg.nums| && msg.nums[i] != msg.nums[0] then Sync(msg.nums[i]) else Settled
      ensures curSyncMagic == if a.Sync? then old(curSyncMagic) else 0
    {
      var k := FirstMatch(Local(blockNumBegin, blockHashArr), msg.nums, msg.hashes);
      i := k;
      var startNum, match' := 0, k < |msg.nums|;
      if match' {
        startNum := msg.nums[k];
      }
      if startNum == msg.nums[0] || !match' {
        curSyncMagic := 0;
        a := Settled;
      } else {
        a := Sync(startNum);
      }
    }

    /** handleAnnounce; `i` is the position of the first match. */
    method HandleAnnounce(msg: Message, c: Chain) returns (a: Action, ghost i: nat)
      requires |msg.nums| == |msg.hashes| > 0
      modifies this
      ensures Foreign(old(curSyncMagic), msg) ==> a == Ignored && unchanged(this)
      ensures !Foreign(old(curSyncMagic), msg) ==>
        && td == msg.td && head == msg.head && headBlockNum == msg.headNum
        && curSyncMagic == if a.Settled? then 0 else msg.magic
      ensures !Foreign(old(curSyncMagic), msg) && |msg.nums| == 1 ==> a == Settled
      ensures !Foreign(old(curSyncMagic), msg) && |msg.nums| == 1 && old(blockHashArr) == [] ==>
        blockHashArr == msg.hashes && blockNumBegin == msg.nums[0]
      ensures |msg.nums| > 1 || old(blockHashArr) != [] ==> unchanged(`blockHashArr) && unchanged(`blockNumBegin)
      ensures !Foreign(old(curSyncMagic), msg) && |msg.nums| > 1 && blockHashArr == [] ==>
        FirstAt(Local(0, c), msg.nums, msg.hashes, i) && a == FirstAction(headBlockNum, msg.nums, i)
      ensures !Foreign(old(curSyncMagic), msg) && |msg.nums| > 1 && blockHashArr != [] ==>
        && FirstAt(Local(blockNumBegin, blockHashArr), msg.nums, msg.hashes, i)
        && a == if i < |msg.nums| && msg.nums[i] != msg.nums[0] then Sync(msg.nums[i]) else Settled
    {
      i := 0;
      if curSyncMagic != 0 && curSyncMagic != msg.magic {
        return Ignored, 0;
      }
      curSyncMagic := msg.magic;
      td, head, headBlockNum := msg.td, msg.head, msg.headNum;
      if |msg.hashes| == 1 {
        if blockHashArr == [] {
          blockHashArr, blockNumBegin := msg.hashes, msg.nums[0];
        }
        curSyncMagic := 0;
        return Settled, 0;
      }
      if blockHashArr == [] {
        a, i := HandleFirst(msg, c);
      } else {
        a, i := HandleCached(msg);
      }
    }
  }

  // ---------- rounds ----------

  /** An announcement of the server lets the client bracket the fork height more closely. */
  lemma RoundBrackets(s: Chain, c: Chain, f: nat, begin: nat, end: nat, nums: seq<nat>, hashes: seq<Hash>, i: nat)
    requires Forks(s, c, f) && begin <= f && begin <= end < |s| && Announces(begin, end, nums) && |hashes| == |nums|
    requires forall j :: 0 <= j < |nums| ==> nums[j] < |s| && hashes[j] == s[nums[j]]
    requires FirstAt(Local(0, c), nums, hashes, i)
    ensures i < |nums| && begin <= nums[i] <= f
    ensures i > 0 ==> f < nums[i - 1] <= end && 2 * (nums[i - 1] - nums[i]) <= end - begin + 1
  {
    var last := |nums| - 1;
    assert Matches(Local(0, c), nums[last], hashes[last]);
    assert i <= last;
    Descends(begin, end, nums, i, last);
    if i > 0 {
      Descends(begin, end, nums, 0, i - 1);
      assert !Matches(Local(0, c), nums[i - 1], hashes[i - 1]);
    }
  }

  lemma {:induction false} Descends(begin: nat, end: nat, nums: seq<nat>, i: nat, j: nat)
    requires Announces(begin, end, nums) && i <= j < |nums|
    ensures nums[j] <= nums[i]
    decreases j
  {
    if i < j { Descends(begin, end, nums, i, j - 1); }
  }

  /** A sync start, widened for safety, is not above the matched height's bound, and not far below it. */
  lemma StartBelow(headNum: nat, start: nat, f: nat)
    requires start <= f <= headNum < U64
    ensures StartOf(headNum, start) <= f
    ensures f <= start + MAX_GAP ==> f <= StartOf(headNum, start) + MIN_CACHED
  {
  }

  /** What a round leads to: the server answers a query, the client, with its own chain, takes the action a. */
  ghost predicate Round(s: Chain, c: Chain, begin: nat, end: nat, a: Action)
    requires |s| > 0
  {
    exists nums, hashes, i :: RoundAt(s, c, begin, end, nums, hashes, i, a)
  }

  ghost predicate RoundAt(s: Chain, c: Chain, begin: nat, end: nat, nums: seq<nat>, hashes: seq<Hash>, i: nat,
                          a: Action)
    requires |s| > 0
  {
    && Answer(s, begin, end, nums, hashes)
    && if |nums| == 1 then a == Settled
       else FirstAt(Local(0, c), nums, hashes, i) && a == FirstAction(|s| - 1, nums, i)
  }

  datatype Interval = Interval(begin: nat, end: nat)

  /** The interval before query i: at first everything, with the head as its end. */
  function Before(queries: seq<Interval>, i: nat): Interval
    requires i <= |queries|
  {
    if i == 0 then Interval(0, 0) else queries[i - 1]
  }

  /** Each query comes from the round before. */
  ghost predicate Asked(s: Chain, c: Chain, queries: seq<Interval>)
    requires |s| > 0
  {
    forall i {:trigger Before(queries, i)} :: 0 <= i < |queries| ==>
      Round(s, c, Before(queries, i).begin, Before(queries, i).end, Query(queries[i].begin, queries[i].end))
  }

  /** A whole exchange: the queries of the client in order, and the action that ends it. */
  ghost predicate Exchange(s: Chain, c: Chain, queries: seq<Interval>, a: Action)
    requires |s| > 0
  {
    var last := Before(queries, |queries|);
    Asked(s, c, queries) && !a.Query? && Round(s, c, last.begin, last.end, a)
  }

  /** A query worth asking: around the fork height, and inside the interval before and at most half as wide. */
  ghost predicate Narrows(f: nat, outer: Interval, q: Interval) {
    && outer.begin <= q.begin <= f < q.end <= outer.end && q.end - q.begin > MAX_GAP
    && 2 * (q.end - q.begin) <= outer.end - outer.begin + 1
  }

  function Outer(s: Chain, queries: seq<Interval>, i: nat): Interval
    requires |s| > 0 && i <= |queries|
  {
    if i == 0 then Interval(0, |s| - 1) else queries[i - 1]
  }

  ghost predicate Narrowing(s: Chain, f: nat, queries: seq<Interval>)
    requires |s| > 0
  {
    forall i {:trigger Outer(s, queries, i)} :: 0 <= i < |queries| ==> Narrows(f, Outer(s, queries, i), queries[i])
  }

  /** What a round does for a fork height that it is about. */
  ghost predicate Closes(f: nat, outer: Interval, a: Action) {
    match a
    case Query(b, e) => Narrows(f, outer, Interval(b, e))
    case Sync(start) => start <= f <= start + MIN_CACHED
    case _ => false
  }

  lemma ActionNarrows(headNum: nat, nums: seq<nat>, i: nat, f: nat, begin: nat, end: nat, a: Action)
    requires a == FirstAction(headNum, nums, i)
    requires i < |nums| && begin <= nums[i] <= f <= headNum < U64
    requires if i == 0 then f == nums[i]
             else f < nums[i - 1] <= end < U64 && 2 * (nums[i - 1] - nums[i]) <= end - begin + 1
    ensures Closes(f, Interval(begin, end), a)
  {
    StartBelow(headNum, nums[i], f);
  }

  lemma RoundNarrows(s: Chain, c: Chain, f: nat, begin: nat, end: nat, a: Action)
    requires Forks(s, c, f) && 2 <= |s| <= U64 && begin <= f && Round(s, c, begin, end, a)
    requires if end == 0 then begin == 0 else f < end < |s|
    ensures Closes(f, Interval(begin, EndOf(s, end)), a)
  {
    var nums, hashes, i :| RoundAt(s, c, begin, end, nums, hashes, i, a);
    AnswerBrackets(s, c, f, begin, end, nums, hashes, i, a);
    ActionNarrows(|s| - 1, nums, i, f, begin, EndOf(s, end), a);
  }

  lemma AnswerBrackets(s: Chain, c: Chain, f: nat, begin: nat, end: nat, nums: seq<nat>, hashes: seq<Hash>, i: nat,
                       a: Action)
    requires Forks(s, c, f) && 2 <= |s| && begin <= f && RoundAt(s, c, begin, end, nums, hashes, i, a)
    requires if end == 0 then begin == 0 else f < end < |s|
    ensures i < |nums| && begin <= nums[i] <= f && a == FirstAction(|s| - 1, nums, i)
    ensures if i == 0 then f == nums[i]
            else f < nums[i - 1] <= EndOf(s, end) && 2 * (nums[i - 1] - nums[i]) <= EndOf(s, end) - begin + 1
  {
    PowersAnnounce(begin, EndOf(s, end), nums);
    assert |nums| > 1;
    RoundBrackets(s, c, f, begin, EndOf(s, end), nums, hashes, i);
  }

  lemma {:induction false} AskedNarrows(s: Chain, c: Chain, f: nat, queries: seq<Interval>, n: nat)
    requires Forks(s, c, f) && 2 <= |s| <= U64 && Asked(s, c, queries) && n <= |queries|
    ensures Narrowing(s, f, queries[..n])
    ensures n > 0 ==> queries[n - 1].begin <= f < queries[n - 1].end < |s|
  {
    if n > 0 {
      AskedNarrows(s, c, f, queries, n - 1);
      var last, q := Before(queries, n - 1), queries[n - 1];
      RoundNarrows(s, c, f, last.begin, last.end, Query(q.begin, q.end));
      forall i | 0 <= i < n ensures Narrows(f, Outer(s, queries[..n], i), queries[..n][i]) {
        assert i < n - 1 ==> Outer(s, queries[..n], i) == Outer(s, queries[..n - 1], i);
      }
    }
  }

  /** Every exchange of a client and a server whose chains agree exactly up to a fork height closes in on it. The client
      ends with a sync start that is the fork height or up to 256 below it; each query is around the fork height and
      at most half as wide as the one before, so there are at most log2 of them. */
  lemma ExchangeNarrows(s: Chain, c: Chain, f: nat, queries: seq<Interval>, a: Action)
    requires Forks(s, c, f) && 2 <= |s| <= U64 && Exchange(s, c, queries, a)
    ensures a.Sync? && a.start <= f <= a.start + MIN_CACHED
    ensures Narrowing(s, f, queries) && (queries != [] ==> MAX_GAP * Two(|queries|) < |s| - 1)
  {
    var n := |queries|;
    AskedNarrows(s, c, f, queries, n);
    assert queries[..n] == queries;
    RoundNarrows(s, c, f, Before(queries, n).begin, Before(queries, n).end, a);
    if n > 0 { FewQueries(s, f, queries); }
  }

  lemma FewQueries(s: Chain, f: nat, queries: seq<Interval>)
    requires |s| > 0 && Narrowing(s, f, queries) && queries != []
    ensures MAX_GAP * Two(|queries|) < |s| - 1
  {
    var n := |queries|;
    QueriesBounded(s, f, queries, n);
    TimesMore(MAX_GAP, queries[n - 1].end - queries[n - 1].begin - 1, Two(n));
  }

  lemma TimesMore(a: nat, b: nat, t: nat)
    requires a <= b
    ensures a * t <= b * t
  {
  }

  lemma {:induction false} QueriesBounded(s: Chain, f: nat, queries: seq<Interval>, n: nat)
    requires |s| > 0 && Narrowing(s, f, queries) && 0 < n <= |queries|
    ensures var q := queries[n - 1]; (q.end - q.begin - 1) * Two(n) < |s| - 1 && q.end - q.begin > MAX_GAP
  {
    var q, p := queries[n - 1], Outer(s, queries, n - 1);
    assert Narrows(f, p, q);
    var w, v := q.end - q.begin - 1, p.end - p.begin - 1;
    assert w * Two(n) == (2 * w) * Two(n - 1);
    if n == 1 {
      assert Two(0) == 1;
    } else {
      QueriesBounded(s, f, queries, n - 1);
      TimesMore(2 * w, v, Two(n - 1));
    }
  }

  lemma AskedSnoc(s: Chain, c: Chain, queries: seq<Interval>, q: Interval)
    requires |s| > 0 && Asked(s, c, queries)
    requires var last := Before(queries, |queries|); Round(s, c, last.begin, last.end, Query(q.begin, q.end))
    ensures Asked(s, c, queries + [q])
  {
    var more := queries + [q];
    forall i {:trigger Before(more, i)} | 0 <= i < |more|
      ensures Round(s, c, Before(more, i).begin, Before(more, i).end, Query(more[i].begin, more[i].end))
    {
      assert Before(more, i) == Before(queries, i);
    }
  }

  /** The exchange between a server and a client whose chains stay fixed. A server with its genesis block alone settles
      it at once; otherwise it ends with a sync start that is the fork height or up to 256 below it. */
  method Narrow(s: Chain, c: Chain, peer: LightPeer, magic: int, ghost f: nat)
    returns (a: Action, ghost queries: seq<Interval>)
    requires Forks(s, c, f) && |s| <= U64 && peer.blockHashArr == [] && peer.curSyncMagic in {0, magic}
    requires magic != 0
    modifies peer
    ensures Exchange(s, c, queries, a)
    ensures |s| == 1 ==> a == Settled && peer.curSyncMagic == 0 && peer.blockHashArr == s && peer.blockNumBegin == 0
    ensures |s| > 1 ==> a.Sync? && a.start <= f <= a.start + MIN_CACHED && Narrowing(s, f, queries)
    ensures |s| > 1 ==> peer.curSyncMagic == magic && peer.blockHashArr == []
  {
    var begin: nat, end: nat := 0, 0;
    queries := [];
    while true
      invariant peer.blockHashArr == [] && peer.curSyncMagic in {0, magic}
      invariant Asked(s, c, queries) && Before(queries, |queries|) == Interval(begin, end)
      invariant if end == 0 then begin == 0 else |s| > 1 && begin <= f < end < |s|
      decreases EndOf(s, end) - begin
    {
      var r := SendAnnounce(s, begin, end);
      ghost var i;
      a, i := peer.HandleAnnounce(Message(magic, 0, s[|s| - 1], |s| - 1, r.nums, r.hashes), c);
      assert RoundAt(s, c, begin, end, r.nums, r.hashes, i, a);
      if |s| > 1 { RoundNarrows(s, c, f, begin, end, a); }
      if !a.Query? {
        break;
      }
      AskedSnoc(s, c, queries, Interval(a.begin, a.end));
      queries := queries + [Interval(a.begin, a.end)];
      begin, end := a.begin, a.end;
    }
    if |s| > 1 { ExchangeNarrows(s, c, f, queries, a); }
  }
}
