/** The bucket size of the overview usage chart, in exact integers. */
module Buckets {
  const MAX_BUCKETS := 360
  const LADDER: seq<int> := [60, 300, 900, 3600, 21600, 86400]

  function Max(a: int, b: int): int {
    if a < b then b else a
  }

  function CeilDiv(a: int, b: int): int
    requires b > 0
  {
    (a + b - 1) / b
  }

  /** One bucket more than the window needs, because its ends need not be aligned. */
  predicate Fits(window: int, bucket: int)
    requires bucket > 0
  {
    CeilDiv(window, bucket) + 1 <= MAX_BUCKETS
  }

  function FirstFitting(window: int, ladder: seq<int>): int
    requires forall i :: 0 <= i < |ladder| ==> ladder[i] > 0
  {
    if ladder == [] then Max(86400, CeilDiv(window, MAX_BUCKETS - 1))
    else if Fits(window, ladder[0]) then ladder[0]
    else FirstFitting(window, ladder[1..])
  }

  function BucketSeconds(window: int): int {
    FirstFitting(Max(window, 1), LADDER)
  }

  // -------------------------------------------------------------------- laws

  lemma CeilAtMost(a: int, b: int, n: int)
    requires b > 0
    ensures CeilDiv(a, b) <= n <==> a <= n * b
  {
    var q, r := (a + b - 1) / b, (a + b - 1) % b;
    assert a + b - 1 == q * b + r && 0 <= r < b;
    hide CeilDiv;
    if q <= n {
      Scaled(q, n, b);
    } else {
      Scaled(n + 1, q, b);
      assert (n + 1) * b == n * b + b;
    }
  }

  lemma Scaled(m: int, n: int, b: int)
    requires m <= n && b > 0
    ensures m * b <= n * b
  {
  }

  lemma FitsIff(window: int, bucket: int)
    requires bucket > 0
    ensures Fits(window, bucket) <==> window <= 359 * bucket
  {
    CeilAtMost(window, bucket, 359);
  }

  /** The choice, rung by rung. */
  lemma Choice(window: int)
    ensures
      var w := Max(window, 1);
      BucketSeconds(window) ==
        if w <= 359 * 60 then 60
        else if w <= 359 * 300 then 300
        else if w <= 359 * 900 then 900
        else if w <= 359 * 3600 then 3600
        else if w <= 359 * 21600 then 21600
        else if w <= 359 * 86400 then 86400
        else Max(86400, CeilDiv(w, 359))
  {
    var w := Max(window, 1);
    hide Fits;
    FitsIff(w, 60);
    FitsIff(w, 300);
    FitsIff(w, 900);
    FitsIff(w, 3600);
    FitsIff(w, 21600);
    FitsIff(w, 86400);
    var days := [86400];
    assert FirstFitting(w, days) == if w <= 359 * 86400 then 86400 else Max(86400, CeilDiv(w, 359));
    var hours := [3600, 21600, 86400];
    assert hours[1..][1..] == days;
    assert FirstFitting(w, hours) == if w <= 359 * 3600 then 3600 else if w <= 359 * 21600 then 21600 else FirstFitting(w, days);
    var minutes := [300, 900, 3600, 21600, 86400];
    assert minutes[1..][1..] == hours;
    assert FirstFitting(w, minutes) == if w <= 359 * 300 then 300 else if w <= 359 * 900 then 900 else FirstFitting(w, hours);
    assert LADDER[1..] == minutes;
  }

  /**
   * The chosen bucket keeps the chart within its limit; it is the least rung of
   * the ladder that does, or the least size of at least a day when none does.
   */
  lemma ChosenIsLeast(window: int)
    ensures
      var b := BucketSeconds(window);
      && b >= 60 && Fits(Max(window, 1), b)
      && (forall rung :: rung in LADDER && Fits(Max(window, 1), rung) ==> b in LADDER && b <= rung)
      && (b !in LADDER ==> forall size :: size >= 86400 && Fits(Max(window, 1), size) ==> b <= size)
  {
    var w, b := Max(window, 1), BucketSeconds(window);
    Choice(window);
    if w > 359 * 86400 {
      CeilAtMost(w, 359, CeilDiv(w, 359));
      CeilAtMost(w, 359, 86400);
    }
    FitsIff(w, b);
    forall rung | rung in LADDER && Fits(w, rung)
      ensures b in LADDER && b <= rung
    {
      FitsIff(w, rung);
    }
    if b !in LADDER {
      forall size | size >= 86400 && Fits(w, size)
        ensures b <= size
      {
        FitsIff(w, size);
        CeilAtMost(w, 359, size);
      }
    }
  }

  /** A longer window never gets finer buckets. */
  lemma Nondecreasing(shorter: int, longer: int)
    requires shorter <= longer
    ensures BucketSeconds(shorter) <= BucketSeconds(longer)
  {
    Choice(shorter);
    Choice(longer);
    CeilAtMost(Max(shorter, 1), 359, CeilDiv(Max(longer, 1), 359));
    CeilAtMost(Max(longer, 1), 359, CeilDiv(Max(longer, 1), 359));
    hide BucketSeconds, CeilDiv;
  }
}
