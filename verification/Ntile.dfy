/**
 NTILE (algebra/agg_ntile.go): a state machine that walks over the rows of a partition and
 moves to the next bucket when the current one is full. It must agree with the closed form:
 with q = rows / buckets and r = rows % buckets, the first r buckets hold q + 1 rows, the others q.
 */
module Ntile {
  import opened Wrappers
  import opened Collation

  // ---- The closed form

  /** The bucket of row `c` (from 0) of a partition of `rows` rows over `buckets` buckets. */
  function Bucket(c: nat, rows: nat, buckets: nat): int
    requires c < rows && buckets > 0
  {
    var q, r := rows / buckets, rows % buckets;
    var long := r * (q + 1);
    if c < long then c / (q + 1) + 1
    else if q > 0 then r + (c - long) / q + 1
    else 0
  }

  function Min(a: int, b: int): int {
    if a < b then a else b
  }

  /** The first row after the first `j` buckets. */
  function Start(j: nat, rows: nat, buckets: nat): nat
    requires buckets > 0
  {
    j * (rows / buckets) + Min(j, rows % buckets)
  }

  lemma {:induction false} QuotientIs(c: nat, d: nat, k: nat)
    requires k * d <= c < k * d + d
    ensures c / d == k
  {
    var q := c / d;
    assert q * d <= c < q * d + d;
    if q < k {
      MultiplesAreApart(q, k, d);
    } else if q > k {
      MultiplesAreApart(k, q, d);
    }
  }

  lemma {:induction false} MultiplesAreApart(i: nat, j: nat, d: nat)
    requires i < j
    ensures i * d + d <= j * d
  {
    assert j * d == i * d + d + (j - i - 1) * d;
    assert (j - i - 1) * d >= 0;
  }

  lemma {:induction false} Distribute(j: int, q: int, r: int)
    ensures j * q + r == (j - r) * q + r * (q + 1)
  {
  }

  lemma {:induction false} StartsMeetTheEnds(rows: nat, buckets: nat)
    requires buckets > 0
    ensures Start(0, rows, buckets) == 0
    ensures Start(buckets, rows, buckets) == rows
  {
  }

  /** Bucket sizes differ by at most one, the longer buckets first. */
  lemma {:induction false} BucketSizes(j: nat, rows: nat, buckets: nat)
    requires 1 <= j <= buckets
    ensures Start(j, rows, buckets) - Start(j - 1, rows, buckets)
         == rows / buckets + if j <= rows % buckets then 1 else 0
  {
    var q := rows / buckets;
    assert j * q == (j - 1) * q + q;
  }

  lemma {:induction false} LongBuckets(c: nat, rows: nat, buckets: nat, j: nat)
    requires buckets > 0 && c < rows && 1 <= j <= rows % buckets
    requires Start(j - 1, rows, buckets) <= c < Start(j, rows, buckets)
    ensures Bucket(c, rows, buckets) == j
  {
    var q, r := rows / buckets, rows % buckets;
    assert Start(j - 1, rows, buckets) == (j - 1) * (q + 1);
    assert Start(j, rows, buckets) == (j - 1) * (q + 1) + (q + 1);
    assert (r - j) * (q + 1) >= 0;
    QuotientIs(c, q + 1, j - 1);
  }

  lemma {:induction false} ShortBuckets(c: nat, rows: nat, buckets: nat, j: nat)
    requires buckets > 0 && c < rows && rows % buckets < j <= buckets
    requires Start(j - 1, rows, buckets) <= c < Start(j, rows, buckets)
    ensures Bucket(c, rows, buckets) == j
  {
    BucketSizes(j, rows, buckets);
    ShortQuotient(c, rows / buckets, rows % buckets, j);
  }

  lemma {:induction false} ShortQuotient(c: nat, q: nat, r: nat, j: nat)
    requires r < j && (j - 1) * q + r <= c < (j - 1) * q + r + q
    ensures q > 0 && c >= r * (q + 1) && (c - r * (q + 1)) / q == j - 1 - r
  {
    Distribute(j - 1, q, r);
    assert (j - 1 - r) * q >= 0;
    QuotientIs(c - r * (q + 1), q, j - 1 - r);
  }

  /** A row is in bucket `j` exactly when it lies between the starts of `j` and of the next. */
  lemma {:induction false} BucketIsAnInterval(c: nat, rows: nat, buckets: nat, j: nat)
    requires c < rows && 1 <= j <= buckets
    ensures Bucket(c, rows, buckets) == j <==> Start(j - 1, rows, buckets) <= c < Start(j, rows, buckets)
  {
    var k := FindBucket(c, rows, buckets, buckets);
    StartsAscend(if j <= k - 1 then j else k, if j <= k - 1 then k - 1 else if k < j then j - 1 else k, rows, buckets);
  }

  lemma {:induction false} StartsAscend(i: nat, j: nat, rows: nat, buckets: nat)
    requires i <= j && buckets > 0
    ensures Start(i, rows, buckets) <= Start(j, rows, buckets)
  {
    assert (j - i) * (rows / buckets) >= 0;
    assert j * (rows / buckets) == i * (rows / buckets) + (j - i) * (rows / buckets);
  }

  /** Every row has a bucket. */
  lemma {:induction false} FindBucket(c: nat, rows: nat, buckets: nat, n: nat) returns (k: nat)
    requires c < rows && 1 <= n <= buckets && c < Start(n, rows, buckets)
    ensures 1 <= k <= n && Start(k - 1, rows, buckets) <= c < Start(k, rows, buckets)
    ensures Bucket(c, rows, buckets) == k
    decreases n
  {
    if Start(n - 1, rows, buckets) <= c {
      k := n;
      if k <= rows % buckets { LongBuckets(c, rows, buckets, k); } else { ShortBuckets(c, rows, buckets, k); }
    } else {
      StartsMeetTheEnds(rows, buckets);
      k := FindBucket(c, rows, buckets, n - 1);
    }
  }

  /** Bucket numbers are in 1..buckets and never decrease from row to row. */
  lemma {:induction false} BucketsAscend(c: nat, d: nat, rows: nat, buckets: nat)
    requires c <= d < rows && buckets > 0
    ensures 1 <= Bucket(c, rows, buckets) <= Bucket(d, rows, buckets) <= buckets
  {
    StartsMeetTheEnds(rows, buckets);
    var k := FindBucket(c, rows, buckets, buckets);
    var l := FindBucket(d, rows, buckets, buckets);
    if l < k {
      StartsAscend(l, k - 1, rows, buckets);
    }
  }

  // ---- The state machine

  /** What a call returns: NULL when the bucket count is not a number, else a bucket number. */
  datatype Answer = NullAnswer | InBucket(number: int)

  /** Number to int64, as the source converts it: truncated toward zero. */
  function Truncate(n: real): int {
    if n >= 0.0 then n.Floor else -(-n).Floor
  }

  /** The whole number between zero and `n` that is nearest to `n`. */
  lemma {:induction false} TruncatesTowardZero(n: real, t: int)
    requires if n >= 0.0 then 0.0 <= t as real <= n < t as real + 1.0 else t as real - 1.0 < n <= t as real <= 0.0
    ensures Truncate(n) == t && (Truncate(n) > 0 <==> n >= 1.0)
  {
    if n < 0.0 {
      assert (-n).Floor == -t;
    }
  }

  /** The counters of the aggregate. */
  datatype Counters = Counters(buckets: int, nrows: nat, cbucket: int, cMaxRow: int)

  /** When row `c` is the first beyond the current bucket, the next bucket begins; without buckets the step divides by zero. */
  function Advance(s: Counters, c: nat): Counters
    requires s.buckets != 0 || c != s.cMaxRow
  {
    if c == s.cMaxRow then
      s.(cbucket := s.cbucket + 1,
         cMaxRow := s.cMaxRow + s.nrows / s.buckets + if s.cbucket < s.nrows % s.buckets then 1 else 0)
    else s
  }

  /** Row `c` of a partition of `rows` rows over `b` buckets has just been answered. */
  ghost predicate At(s: Counters, c: nat, rows: nat, b: nat) {
    && c < rows && b > 0 && s.buckets == b && s.nrows == rows && 1 <= s.cbucket <= b
    && Start(s.cbucket - 1, rows, b) <= c < s.cMaxRow == Start(s.cbucket, rows, b)
  }

  /** Of the next buckets at most the longer ones hold rows, so the step from a full bucket is never empty. */
  lemma {:induction false} StartOfNext(j: nat, c: nat, rows: nat, b: nat)
    requires b > 0 && Start(j, rows, b) == c < rows
    ensures j < b && c < Start(j + 1, rows, b)
    ensures Start(j + 1, rows, b) == c + rows / b + if j < rows % b then 1 else 0
  {
    StartsMeetTheEnds(rows, b);
    if j >= b {
      StartsAscend(b, j, rows, b);
    }
    BucketSizes(j + 1, rows, b);
  }

  lemma {:induction false} AdvanceFromTheStart(rows: nat, b: nat)
    requires b > 0 && rows > 0
    ensures At(Advance(Counters(b, rows, 0, 0), 0), 0, rows, b)
  {
    StartsMeetTheEnds(rows, b);
    StartOfNext(0, 0, rows, b);
  }

  lemma {:induction false} AdvanceByOne(s: Counters, c: nat, rows: nat, b: nat)
    requires At(s, c, rows, b) && c + 1 < rows
    ensures At(Advance(s, c + 1), c + 1, rows, b)
  {
    if c + 1 == s.cMaxRow {
      StartOfNext(s.cbucket, c + 1, rows, b);
    }
  }

  // ---- Counters that an earlier partition left

  const FRESH := Counters(0, 0, 0, 0)

  /** Counters that no partition has set, or that a partition ended with. */
  predicate Left(s: Counters) {
    s == FRESH || (s.buckets > 0 && s.nrows > 0 && s.cbucket >= 1 && s.cbucket >= s.nrows % s.buckets && s.cMaxRow > 0)
  }

  /** Passing the rows up to row `c`, of which row 0 changes nothing, through the aggregate divides by zero. */
  predicate Stumbles(s: Counters, c: nat) {
    s.buckets == 0 && 0 < s.cMaxRow <= c
  }

  /** Rows 1 to `c` in turn, when row 0 has left the counters as they were. */
  function Replayed(s: Counters, c: nat): (r: Counters)
    requires !Stumbles(s, c)
    ensures r.buckets == s.buckets && r.cbucket >= s.cbucket && (s.buckets == 0 ==> r == s)
  {
    if c == 0 then s else Advance(Replayed(s, c - 1), c)
  }

  /** The counters when the rows before row `c` have been evaluated, each with a replay of the rows up to it. */
  function Evaluated(s: Counters, c: nat): (r: Counters)
    requires c == 0 || !Stumbles(s, c - 1)
    ensures r.buckets == s.buckets && r.cbucket >= s.cbucket && (s.buckets == 0 ==> r == s)
  {
    if c == 0 then s else Replayed(Evaluated(s, c - 1), c - 1)
  }

  /** How often the left counters move on while the rows before row `c` are evaluated one after the other. */
  function Moves(s: Counters, c: nat): nat
    requires Left(s)
  {
    if s == FRESH || c <= s.cMaxRow then 0
    else if s.nrows < s.buckets then c - s.cMaxRow
    else (c - 1 - s.cMaxRow) / (s.nrows / s.buckets) + 1
  }

  /** The left counters when the rows before row `c` have been evaluated. */
  function Drifted(s: Counters, c: nat): Counters
    requires Left(s)
  {
    if s == FRESH then s
    else s.(cbucket := s.cbucket + Moves(s, c), cMaxRow := s.cMaxRow + Moves(s, c) * (s.nrows / s.buckets))
  }

  lemma {:induction false} DriftedIsLeft(s: Counters, c: nat)
    requires Left(s)
    ensures Left(Drifted(s, c))
  {
    if s != FRESH {
      assert Moves(s, c) * (s.nrows / s.buckets) >= 0;
    }
  }

  lemma {:induction false} DriftedBucket(s: Counters, c: nat)
    requires Left(s)
    ensures Drifted(s, c).cbucket == s.cbucket + Moves(s, c)
  {
    hide Left;
    assert s == FRESH ==> Moves(s, c) == 0;
    hide Moves;
  }

  lemma {:induction false} DriftStarts(s: Counters)
    requires Left(s)
    ensures Drifted(s, 0) == s
  {
  }

  lemma {:induction false} QuietReplay(s: Counters, c: nat)
    requires s.buckets > 0 && (s.cMaxRow > c || s.cMaxRow == 0)
    ensures Replayed(s, c) == s
  {
    if c > 0 {
      QuietReplay(s, c - 1);
    }
  }

  /** Without whole rows per bucket the end of the bucket stays where it is, and each replay passes it once. */
  lemma {:induction false} StuckReplay(s: Counters, c: nat)
    requires Left(s) && s.buckets > 0 && s.nrows < s.buckets
    ensures Replayed(s, c) == if c < s.cMaxRow then s else s.(cbucket := s.cbucket + 1)
  {
    assert s.nrows / s.buckets == 0;
    if c > 0 {
      StuckReplay(s, c - 1);
    }
  }

  /** With whole rows per bucket only the last row of a replay can pass the end of the bucket. */
  lemma {:induction false} MovingReplay(s: Counters, c: nat)
    requires Left(s) && s.buckets > 0 && c <= s.cMaxRow
    ensures Replayed(s, c) ==
      if c == s.cMaxRow then s.(cbucket := s.cbucket + 1, cMaxRow := s.cMaxRow + s.nrows / s.buckets) else s
  {
    if c == s.cMaxRow {
      QuietReplay(s, c - 1);
    } else {
      QuietReplay(s, c);
    }
  }

  lemma {:induction false} NextQuotient(x: nat, q: nat)
    requires q > 0
    ensures x < (x / q + 1) * q
    ensures (x + 1) / q == if x + 1 == (x / q + 1) * q then x / q + 1 else x / q
  {
    var k := x / q;
    assert k * q <= x < k * q + q && (k + 1) * q == k * q + q;
    if x + 1 == (k + 1) * q {
      QuotientIs(x + 1, q, k + 1);
    } else {
      QuotientIs(x + 1, q, k);
    }
  }

  /** Evaluating row `c` moves the drifted counters on to those of the next row. */
  lemma {:induction false} ReplayDrifts(s: Counters, c: nat)
    requires Left(s)
    ensures !Stumbles(Drifted(s, c), c) && Replayed(Drifted(s, c), c) == Drifted(s, c + 1)
  {
    if s != FRESH {
      DriftedIsLeft(s, c);
      var d, q := Drifted(s, c), s.nrows / s.buckets;
      if s.nrows < s.buckets {
        assert q == 0;
        StuckReplay(d, c);
      } else {
        MovesOn(s, c, q);
        MovingReplay(d, c);
      }
    }
  }

  lemma {:induction false} MovesOn(s: Counters, c: nat, q: nat)
    requires Left(s) && s.buckets > 0 && s.nrows >= s.buckets && q == s.nrows / s.buckets
    ensures c <= s.cMaxRow + Moves(s, c) * q
    ensures Moves(s, c + 1) == Moves(s, c) + if c == s.cMaxRow + Moves(s, c) * q then 1 else 0
    ensures Moves(s, c + 1) * q == Moves(s, c) * q + if c == s.cMaxRow + Moves(s, c) * q then q else 0
  {
    assert q > 0;
    var m := Moves(s, c);
    assert (m + 1) * q == m * q + q;
    if c > s.cMaxRow {
      NextQuotient(c - 1 - s.cMaxRow, q);
    }
  }

  /** Counters that an accepted partition left move as the closed form says. */
  lemma {:induction false} LeftCountersDrift(s: Counters, c: nat)
    requires Left(s)
    ensures (c == 0 || !Stumbles(s, c - 1)) && Evaluated(s, c) == Drifted(s, c)
  {
    hide Drifted, Replayed;
    if c == 0 {
      DriftStarts(s);
    } else {
      LeftCountersDrift(s, c - 1);
      ReplayDrifts(s, c - 1);
    }
  }

  // ---- What a partition answers and leaves

  const REFUSED := "Invalid argument"
  const DIVISION := "integer divide by zero"

  /** There is no row to fail on, or a bucket count that is a number is at least one and any other meets no division by zero. */
  predicate Fine(s: Counters, bv: Value, rows: nat) {
    rows > 0 ==> if bv.Number? then Truncate(bv.n) > 0 else !Stumbles(s, rows - 1)
  }

  /** The answer for row `c`. A bucket count that is no number leaves all rows but the first to the counters as they were. */
  function AnswerOf(s: Counters, bv: Value, rows: nat, c: nat): Answer
    requires c < rows && Fine(s, bv, rows)
  {
    if bv.Number? then InBucket(Bucket(c, rows, Truncate(bv.n)))
    else if c == 0 then NullAnswer
    else InBucket(Evaluated(s, c + 1).cbucket)
  }

  /** The counters after a partition. A refused bucket count is kept, and a division by zero changes nothing. */
  function After(s: Counters, bv: Value, rows: nat): Counters {
    if rows == 0 then s
    else if !bv.Number? then if Stumbles(s, rows - 1) then s else Evaluated(s, rows)
    else if Truncate(bv.n) <= 0 then s.(buckets := Truncate(bv.n))
    else Counters(Truncate(bv.n), rows, Bucket(rows - 1, rows, Truncate(bv.n)), rows)
  }

  lemma {:induction false} EndOfPartition(s: Counters, rows: nat, b: nat)
    requires rows > 0 && At(s, rows - 1, rows, b)
    ensures s == Counters(b, rows, Bucket(rows - 1, rows, b), rows) && Left(s)
  {
    StartsMeetTheEnds(rows, b);
    StartsAscend(s.cbucket, b, rows, b);
    BucketIsAnInterval(rows - 1, rows, b, s.cbucket);
    LastBucketIsShort(s.cbucket, rows, b);
  }

  lemma {:induction false} LastBucketIsShort(j: nat, rows: nat, b: nat)
    requires 1 <= j <= b && Start(j, rows, b) == rows
    ensures j >= rows % b
  {
    RoomLeft(j, b, rows / b, rows % b);
  }

  lemma {:induction false} RoomLeft(j: nat, b: nat, q: nat, r: nat)
    requires j <= b && j * q + Min(j, r) == b * q + r
    ensures j >= r
  {
    if j < b {
      MultiplesAreApart(j, b, q);
    }
  }

  lemma {:induction false} LastAnswered(rows: nat, b: nat)
    requires rows > 0 && b > 0
    ensures Left(Counters(b, rows, Bucket(rows - 1, rows, b), rows))
  {
    StartsMeetTheEnds(rows, b);
    var k := FindBucket(rows - 1, rows, b, b);
    StartsAscend(k, b, rows, b);
    LastBucketIsShort(k, rows, b);
  }

  /** As long as no bucket count is refused, no partition meets a division by zero, and each answers in closed form. */
  lemma {:induction false} LeftAnswers(s: Counters, bv: Value, rows: nat)
    requires Left(s) && (rows > 0 && bv.Number? ==> Truncate(bv.n) > 0)
    ensures Fine(s, bv, rows) && Left(After(s, bv, rows))
    ensures forall c :: 0 < c < rows && !bv.Number? ==> AnswerOf(s, bv, rows, c) == InBucket(s.cbucket + Moves(s, c + 1))
  {
    hide Evaluated, Moves, Drifted;
    if rows > 0 && bv.Number? {
      LastAnswered(rows, Truncate(bv.n));
    } else if rows > 0 {
      LeftCountersDrift(s, rows);
      DriftedIsLeft(s, rows);
      forall c | 0 < c < rows ensures AnswerOf(s, bv, rows, c) == InBucket(s.cbucket + Moves(s, c + 1)) {
        LeftCountersDrift(s, c + 1);
        DriftedBucket(s, c + 1);
      }
    }
  }

  /** NTILE of a bucket count that is no number is NULL for all rows exactly when there is no second row. */
  lemma {:induction false} NullExactly(s: Counters, bv: Value, rows: nat)
    requires !bv.Number? && Fine(s, bv, rows)
    ensures (forall c :: 0 <= c < rows ==> AnswerOf(s, bv, rows, c) == NullAnswer) <==> rows <= 1
  {
    if rows > 1 {
      assert AnswerOf(s, bv, rows, 1) != NullAnswer;
    }
  }

  /** Counters that a run of partitions can reach: only a bucket that has begun has an end. */
  predicate Reached(s: Counters) {
    s.cbucket >= 0 && (s.cbucket == 0 ==> s.cMaxRow == 0)
  }

  lemma {:induction false} NeverBegun(s: Counters, c: nat)
    requires s.cMaxRow == 0
    ensures Replayed(s, c) == s
  {
    if c > 0 {
      NeverBegun(s, c - 1);
    }
  }

  lemma {:induction false} NeverBegunEvaluated(s: Counters, c: nat)
    requires s.cMaxRow == 0
    ensures Evaluated(s, c) == s
  {
    if c > 0 {
      NeverBegunEvaluated(s, c - 1);
      NeverBegun(s, c - 1);
    }
  }

  lemma {:induction false} ReachedStays(s: Counters, bv: Value, rows: nat)
    requires Reached(s)
    ensures Reached(After(s, bv, rows))
  {
    hide Evaluated, Bucket;
    if rows > 0 && bv.Number? && Truncate(bv.n) > 0 {
      BucketsAscend(rows - 1, rows - 1, rows, Truncate(bv.n));
    } else if s.cbucket == 0 {
      NeverBegunEvaluated(s, rows);
    }
  }

  /** Earlier partitions do not matter exactly when the count is a number, or there is no second row, or no bucket has begun. */
  lemma {:induction false} HistoryIsForgottenExactly(s: Counters, bv: Value, rows: nat)
    requires Reached(s) && Fine(s, bv, rows)
    ensures Fine(FRESH, bv, rows)
    ensures (forall c :: 0 <= c < rows ==> AnswerOf(s, bv, rows, c) == AnswerOf(FRESH, bv, rows, c))
       <==> bv.Number? || rows <= 1 || s.cbucket == 0
  {
    hide Evaluated;
    if !bv.Number? {
      forall c | 0 < c < rows ensures AnswerOf(FRESH, bv, rows, c) == InBucket(0) && (s.cbucket == 0 ==> AnswerOf(s, bv, rows, c) == InBucket(0)) {
        NeverBegunEvaluated(FRESH, c + 1);
        if s.cbucket == 0 {
          NeverBegunEvaluated(s, c + 1);
        }
      }
      if rows > 1 && s.cbucket > 0 {
        assert AnswerOf(s, bv, rows, 1) != AnswerOf(FRESH, bv, rows, 1);
      }
    }
  }

  /** Four rows of NTILE(2), then six rows of NTILE(NULL): NULL, three rows in the last bucket of the first partition, and two beyond it. */
  lemma {:induction false} StaleBuckets()
    ensures
      var s := After(FRESH, Number(2.0), 4);
      var answers := seq(6, c requires 0 <= c < 6 && Fine(s, Null, 6) => AnswerOf(s, Null, 6, c));
      Fine(s, Null, 6) && answers == [NullAnswer, InBucket(2), InBucket(2), InBucket(2), InBucket(3), InBucket(3)]
  {
    hide Evaluated;
    FourInTwo();
    LeftAnswers(Counters(2, 4, 2, 4), Null, 6);
  }

  lemma {:induction false} FourInTwo()
    ensures After(FRESH, Number(2.0), 4) == Counters(2, 4, 2, 4)
  {
    assert Truncate(2.0) == 2 && Bucket(3, 4, 2) == 2;
  }

  /** After four rows of NTILE(2) and a refused NTILE(0), NTILE(NULL) divides by zero exactly from five rows on. */
  lemma {:induction false} RefusedCountIsKept(rows: nat)
    ensures
      var s := After(After(FRESH, Number(2.0), 4), Number(0.0), 1);
      Fine(s, Null, rows) <==> rows <= 4
  {
    FourInTwo();
    assert Truncate(0.0) == 0;
  }

  // ---- The aggregate and the operator's loops

  class NtileState {
    var buckets: int
    var nrows: nat
    var cbucket: int
    var cMaxRow: int

    ghost function Now(): Counters
      reads this
    {
      Counters(buckets, nrows, cbucket, cMaxRow)
    }

    constructor ()
      ensures Now() == FRESH
    {
      buckets, nrows, cbucket, cMaxRow := 0, 0, 0, 0;
    }

    /**
     One row. Row 0 starts a partition: a bucket count that is no number gives NULL and leaves the
     counters as they were, one that is not positive is an error and stays behind as the number of buckets.
     */
    method CumulatePart(c: nat, bv: Value, rows: nat) returns (r: Outcome<Answer>)
      modifies this
      ensures c == 0 && !bv.Number? ==> r == Ok(NullAnswer) && Now() == old(Now())
      ensures c == 0 && bv.Number? && Truncate(bv.n) <= 0 ==> r == Fault(REFUSED) && Now() == old(Now()).(buckets := Truncate(bv.n))
      ensures c == 0 && bv.Number? && Truncate(bv.n) > 0 ==>
        Now() == Advance(Counters(Truncate(bv.n), rows, 0, 0), 0) && r == Ok(InBucket(cbucket))
      ensures c > 0 && old(buckets) == 0 && old(cMaxRow) == c ==> r == Fault(DIVISION) && Now() == old(Now())
      ensures c > 0 && !(old(buckets) == 0 && old(cMaxRow) == c) ==> Now() == Advance(old(Now()), c) && r == Ok(InBucket(cbucket))
    {
      if c == 0 {
        if !bv.Number? {
          return Ok(NullAnswer);
        }
        buckets := Truncate(bv.n);
        if buckets <= 0 {
          return Fault(REFUSED);
        }
        nrows, cbucket, cMaxRow := rows, 0, 0;
      }
      if c == cMaxRow {
        if buckets == 0 {
          return Fault(DIVISION);
        }
        cMaxRow := cMaxRow + nrows / buckets;
        if cbucket < nrows % buckets {
          cMaxRow := cMaxRow + 1;
        }
        cbucket := cbucket + 1;
      }
      r := Ok(InBucket(cbucket));
    }

    /** Row `c` in the operator, which passes the rows from the first to row `c` through the aggregate again. */
    method Evaluate(c: nat, bv: Value, rows: nat) returns (r: Outcome<Answer>)
      requires c < rows
      modifies this
      ensures bv.Number? && Truncate(bv.n) <= 0 ==> r == Fault(REFUSED) && Now() == old(Now()).(buckets := Truncate(bv.n))
      ensures bv.Number? && Truncate(bv.n) > 0 ==> At(Now(), c, rows, Truncate(bv.n)) && r == Ok(InBucket(cbucket))
      ensures !bv.Number? && Stumbles(old(Now()), c) ==> r == Fault(DIVISION) && Now() == old(Now())
      ensures !bv.Number? && !Stumbles(old(Now()), c) ==>
        Now() == Replayed(old(Now()), c) && r == Ok(if c == 0 then NullAnswer else InBucket(cbucket))
    {
      hide Start, Replayed;
      ghost var s, b := Now(), if bv.Number? then Truncate(bv.n) else 0;
      r := CumulatePart(0, bv, rows);
      if r.Fault? {
        return;
      }
      if bv.Number? {
        AdvanceFromTheStart(rows, b);
      } else {
        NothingReplayed(s);
      }
      for i := 0 to c
        invariant bv.Number? ==> b > 0 && At(Now(), i, rows, b) && r == Ok(InBucket(cbucket))
        invariant !bv.Number? ==> !Stumbles(s, i) && Now() == Replayed(s, i) && r == Ok(if i == 0 then NullAnswer else InBucket(cbucket))
      {
        if bv.Number? {
          AdvanceByOne(Now(), i, rows, b);
        } else {
          OneMoreReplayed(s, i + 1);
        }
        r := CumulatePart(i + 1, bv, rows);
        if r.Fault? {
          return;
        }
      }
    }
  }

  lemma {:induction false} NothingReplayed(s: Counters)
    ensures Replayed(s, 0) == s
  {
  }

  lemma {:induction false} OneMoreReplayed(s: Counters, c: nat)
    requires c > 0 && !Stumbles(s, c - 1)
    ensures Stumbles(s, c) <==> s.buckets == 0 && Replayed(s, c - 1).cMaxRow == c
    ensures !Stumbles(s, c) ==> Replayed(s, c) == Advance(Replayed(s, c - 1), c)
  {
  }

  datatype Partition = Partition(bv: Value, rows: nat)

  /** The answers to a partition that goes through. */
  ghost predicate Answers(s: Counters, part: Partition, answers: seq<Answer>) {
    && Fine(s, part.bv, part.rows) && |answers| == part.rows
    && forall c :: 0 <= c < part.rows ==> answers[c] == AnswerOf(s, part.bv, part.rows, c)
  }

  /** A whole partition, from whatever counters the aggregate has. */
  method RunPartition(state: NtileState, bv: Value, rows: nat) returns (r: Outcome<seq<Answer>>)
    modifies state
    ensures r.Ok? <==> Fine(old(state.Now()), bv, rows)
    ensures r.Fault? ==> r.message == if bv.Number? then REFUSED else DIVISION
    ensures r.Ok? ==> Answers(old(state.Now()), Partition(bv, rows), r.value)
    ensures state.Now() == After(old(state.Now()), bv, rows)
  {
    hide Start, Bucket, Replayed, Evaluated;
    var out: seq<Answer> := [];
    ghost var s := state.Now();
    NothingEvaluated(s);
    for c := 0 to rows
      invariant |out| == c
      invariant c == 0 ==> state.Now() == s
      invariant c > 0 && bv.Number? ==> Truncate(bv.n) > 0 && At(state.Now(), c - 1, rows, Truncate(bv.n))
      invariant !bv.Number? ==> (c > 0 ==> !Stumbles(s, c - 1)) && state.Now() == Evaluated(s, c)
      invariant forall i :: 0 <= i < c && bv.Number? ==> out[i] == InBucket(Bucket(i, rows, Truncate(bv.n)))
      invariant forall i :: 0 <= i < c && !bv.Number? ==> out[i] == if i == 0 then NullAnswer else InBucket(Evaluated(s, i + 1).cbucket)
    {
      if !bv.Number? {
        OneMoreEvaluated(s, c);
      }
      var answer := state.Evaluate(c, bv, rows);
      if answer.Fault? {
        return Fault(answer.message);
      }
      if bv.Number? {
        BucketIsAnInterval(c, rows, Truncate(bv.n), state.cbucket);
      }
      out := out + [answer.value];
    }
    if rows > 0 && bv.Number? {
      EndOfPartition(state.Now(), rows, Truncate(bv.n));
    }
    return Ok(out);
  }

  lemma {:induction false} NothingEvaluated(s: Counters)
    ensures Evaluated(s, 0) == s
  {
  }

  /** Evaluating row `c` divides by zero exactly if the counters did so from the start. */
  lemma {:induction false} OneMoreEvaluated(s: Counters, c: nat)
    requires c == 0 || !Stumbles(s, c - 1)
    ensures Stumbles(Evaluated(s, c), c) <==> Stumbles(s, c)
    ensures !Stumbles(s, c) ==> Evaluated(s, c + 1) == Replayed(Evaluated(s, c), c)
    ensures Stumbles(s, c) ==> Evaluated(s, c) == s
  {
  }

  // ---- All partitions of a query

  /** The counters before partition `p`. */
  function Before(s: Counters, parts: seq<Partition>, p: nat): Counters
    requires p <= |parts|
  {
    if p == 0 then s else After(Before(s, parts, p - 1), parts[p - 1].bv, parts[p - 1].rows)
  }

  /** The first `p` partitions go through. */
  predicate AllFine(s: Counters, parts: seq<Partition>, p: nat)
    requires p <= |parts|
  {
    forall i :: 0 <= i < p ==> Fine(Before(s, parts, i), parts[i].bv, parts[i].rows)
  }

  /**
   One execution of a query, on an aggregate that earlier partitions and executions have used. The first partition that
   does not go through, number `done`, ends it.
   */
  method RunPartitions(state: NtileState, parts: seq<Partition>) returns (r: Outcome<seq<seq<Answer>>>, done: nat)
    modifies state
    ensures done <= |parts| && AllFine(old(state.Now()), parts, done) && (r.Ok? <==> done == |parts|)
    ensures r.Fault? ==> !Fine(Before(old(state.Now()), parts, done), parts[done].bv, parts[done].rows)
    ensures state.Now() == Before(old(state.Now()), parts, if r.Ok? then done else done + 1)
    ensures r.Ok? ==> |r.value| == |parts| && forall p :: 0 <= p < |parts| ==> Answers(Before(old(state.Now()), parts, p), parts[p], r.value[p])
  {
    hide AnswerOf, After, Fine, Answers;
    var out: seq<seq<Answer>> := [];
    ghost var s := state.Now();
    for p := 0 to |parts|
      invariant |out| == p && AllFine(s, parts, p) && state.Now() == Before(s, parts, p)
      invariant forall i :: 0 <= i < p ==> Answers(Before(s, parts, i), parts[i], out[i])
    {
      var answers := RunPartition(state, parts[p].bv, parts[p].rows);
      if answers.Fault? {
        return Fault(answers.message), p;
      }
      out := out + [answers.value];
    }
    return Ok(out), |parts|;
  }

  /** In executions without a refused bucket count no partition meets a division by zero. */
  lemma {:induction false} OnlyRefusalsStumble(s: Counters, parts: seq<Partition>, p: nat)
    requires p <= |parts| && Left(s)
    requires forall i :: 0 <= i < p && parts[i].rows > 0 && parts[i].bv.Number? ==> Truncate(parts[i].bv.n) > 0
    ensures AllFine(s, parts, p) && Left(Before(s, parts, p))
  {
    hide After, Left, Fine;
    if p > 0 {
      OnlyRefusalsStumble(s, parts, p - 1);
      LeftAnswers(Before(s, parts, p - 1), parts[p - 1].bv, parts[p - 1].rows);
    }
  }
}
