/** What the runtime statistics of a job amount to (source/kiwibes_database.cpp:180-195), over the reals. */
module JobsStatistics {
  import opened JobsDatabase

  function Sum(runs: seq<Run>): real {
    if runs == [] then 0.0 else Sum(runs[..|runs| - 1]) + runs[|runs| - 1].Time()
  }

  function Squared(d: real): real {
    d * d
  }

  /** The sum of the squared deviations from c. */
  function SquaresFrom(runs: seq<Run>, c: real): real {
    if runs == [] then 0.0
    else
      SquaresFrom(runs[..|runs| - 1], c) + Squared(runs[|runs| - 1].Time() - c)
  }

  function Mean(runs: seq<Run>): real
    requires runs != []
  {
    Sum(runs) / |runs| as real
  }

  /** The database after these runs of one job, one after the other. */
  function AfterRuns(db: Db, name: string, runs: seq<Run>): Db {
    if runs == [] then db
    else
      var last := runs[|runs| - 1];
      var before := AfterRuns(db, name, runs[..|runs| - 1]);
      AfterStop(AfterStart(before, name, last.start).0, name, last.stop).0
  }

  lemma {:induction false} Distribute(a: real, b: real, c: real)
    ensures a * (b + c) == a * b + a * c && (b + c) * a == b * a + c * a
  {
  }

  /** By how much the squared deviations of n numbers with sum s from c shrink when c moves by e. */
  function Correction(n: real, c: real, e: real, s: real): real {
    2.0 * (e * (s - n * c)) - n * (e * e)
  }

  /** One more deviation when the centre moves by e. */
  lemma {:induction false} RecentreOne(n: real, k: real, c: real, e: real, x: real, s: real, q: real, r: real)
    requires k == n + 1.0
    requires r == q - Correction(n, c, e, s)
    ensures r + Squared(x - (c + e)) == q + Squared(x - c) - Correction(k, c, e, s + x)
  {
    var d := x - c;
    assert x - (c + e) == d - e;
    assert (d - e) * (d - e) == d * d - 2.0 * (e * d) + e * e;
    Distribute(c, n, 1.0);
    assert (s + x) - (n + 1.0) * c == (s - n * c) + d;
    Distribute(e, s - n * c, d);
    Distribute(e * e, n, 1.0);
  }

  lemma {:induction false} LastSum(runs: seq<Run>)
    requires runs != []
    ensures Sum(runs) == Sum(runs[..|runs| - 1]) + runs[|runs| - 1].Time()
    ensures Mean(runs) == Sum(runs) / |runs| as real
  {
  }

  lemma {:induction false} LastSquare(runs: seq<Run>, c: real)
    requires runs != []
    ensures SquaresFrom(runs, c) == SquaresFrom(runs[..|runs| - 1], c) + Squared(runs[|runs| - 1].Time() - c)
  {
  }

  /** Moving the centre from c to c + e. */
  lemma {:induction false} Recentre(runs: seq<Run>, c: real, e: real)
    ensures SquaresFrom(runs, c + e) == SquaresFrom(runs, c) - Correction(|runs| as real, c, e, Sum(runs))
  {
    if runs == [] {
      assert Correction(0.0, c, e, 0.0) == 0.0;
    } else {
      LastSum(runs);
      LastSquare(runs, c);
      LastSquare(runs, c + e);
      hide Sum, SquaresFrom, Mean, Run.Time, Squared, Correction;
      var before, x := runs[..|runs| - 1], runs[|runs| - 1].Time();
      var n := |before| as real;
      Recentre(before, c, e);
      RecentreOne(n, |runs| as real, c, e, x, Sum(before), SquaresFrom(before, c), SquaresFrom(before, c + e));
    }
  }

  /** The step of the code: the mean moves by e, an (n + 1)-th part of the new deviation. */
  lemma {:induction false} Moves(n: real, m: real, x: real, e: real)
    requires x - m == (n + 1.0) * e
    ensures n * (e * e) + (x - (m + e)) * (x - (m + e)) == (x - m) * (x - (m + e))
  {
    Distribute(e, n, 1.0);
    var y := x - (m + e);
    assert y == n * e;
    assert (x - m) * y == (e + y) * y;
    Distribute(y, e, y);
    assert e * y == e * (n * e) == n * (e * e);
  }

  /** The arithmetic of one update: from sum s and squares q of n numbers with mean m to those of n + 1. */
  lemma {:induction false} Update(n: real, m: real, x: real, e: real, s: real, q: real, r: real, v: real)
    requires n >= 0.0 && s == n * m && x - m == (n + 1.0) * e
    requires r == q - Correction(n, m, e, s) && v == r + Squared(x - (m + e))
    ensures (s + x) / (n + 1.0) == m + e && v == q + (x - m) * (x - (m + e))
  {
    MeanMoves(n, m, x, e);
    Moves(n, m, x, e);
    Quotient(s + x, n + 1.0, m + e);
    assert e * 0.0 == 0.0;
  }

  lemma {:induction false} Quotient(a: real, b: real, c: real)
    requires b > 0.0 && a == b * c
    ensures a / b == c
  {
  }

  /** One more run: the mean and squares from the mean and squares so far. */
  lemma {:induction false} OneMore(runs: seq<Run>, m: real, e: real)
    requires runs != []
    requires Sum(runs[..|runs| - 1]) == (|runs| - 1) as real * m
    requires runs[|runs| - 1].Time() - m == |runs| as real * e
    ensures Mean(runs) == m + e
    ensures var x := runs[|runs| - 1].Time();
            SquaresFrom(runs, m + e) == SquaresFrom(runs[..|runs| - 1], m) + (x - m) * (x - (m + e))
  {
    hide Sum, SquaresFrom, Mean, Run.Time, Squared, Correction;
    var before, x := runs[..|runs| - 1], runs[|runs| - 1].Time();
    var n := |before| as real;
    assert |runs| as real == n + 1.0;
    LastSum(runs);
    LastSquare(runs, m + e);
    Recentre(before, m, e);
    Update(n, m, x, e, Sum(before), SquaresFrom(before, m), SquaresFrom(before, m + e), SquaresFrom(runs, m + e));
  }

  lemma {:induction false} Share(d: real, n: real)
    requires n > 0.0
    ensures d == n * (d / n)
  {
  }

  /** avg-runtime is the mean of these runtimes, var-runtime the sum of their squared deviations from it,
      and nbr-runs their number. */
  predicate IsStatistics(job: Job, runs: seq<Run>) {
    && job.nbrRuns == |runs|
    && job.avgRuntime == (if runs == [] then 0.0 else Mean(runs))
    && job.varRuntime == SquaresFrom(runs, job.avgRuntime)
  }

  /** A record whose statistics are those of another. */
  predicate SameStatistics(a: Job, b: Job) {
    a.nbrRuns == b.nbrRuns && a.avgRuntime == b.avgRuntime && a.varRuntime == b.varRuntime
  }

  lemma {:induction false} SameIsStatistics(a: Job, b: Job, runs: seq<Run>)
    requires SameStatistics(a, b)
    ensures IsStatistics(a, runs) <==> IsStatistics(b, runs)
  {
  }

  /** One more run keeps the statistics right. */
  lemma {:induction false} FinishKeepsStatistics(job: Job, runs: seq<Run>, last: Run)
    requires IsStatistics(job, runs)
    ensures IsStatistics(Finished(job, last.stop - last.start), runs + [last])
  {
    hide Sum, SquaresFrom, Mean, Finished;
    var all, x := runs + [last], last.Time();
    var m, e := job.avgRuntime, (x - job.avgRuntime) / |all| as real;
    assert all[..|runs|] == runs;
    SumOfMean(runs);
    Share(x - m, |all| as real);
    OneMore(all, m, e);
    Finishes(job, last.stop - last.start);
  }

  /** After any runs of a fresh job its statistics are those of these runs. */
  lemma {:induction false} Statistics(db: Db, name: string, runs: seq<Run>)
    requires name in db && db[name].status.Stopped?
    requires db[name].nbrRuns == 0 && db[name].avgRuntime == 0.0 && db[name].varRuntime == 0.0
    ensures var t := AfterRuns(db, name, runs);
            name in t && t[name].status.Stopped? && IsStatistics(t[name], runs)
  {
    if runs == [] {
      NoRuns(db[name]);
    } else {
      var n := |runs| - 1;
      hide IsStatistics;
      Statistics(db, name, runs[..n]);
      var job := AfterRuns(db, name, runs[..n])[name];
      StartKeepsStatistics(job, runs[n].start, runs[..n]);
      FinishKeepsStatistics(job.(status := Running, startTime := runs[n].start), runs[..n], runs[n]);
      assert runs[..n] + [runs[n]] == runs;
    }
  }

  lemma {:induction false} StartKeepsStatistics(job: Job, start: int, runs: seq<Run>)
    requires IsStatistics(job, runs)
    ensures IsStatistics(job.(status := Running, startTime := start), runs)
  {
  }

  lemma {:induction false} NoRuns(job: Job)
    requires job.nbrRuns == 0 && job.avgRuntime == 0.0 && job.varRuntime == 0.0
    ensures IsStatistics(job, [])
  {
  }

  lemma {:induction false} Finishes(job: Job, runtime: int)
    ensures var t, d := Finished(job, runtime), runtime as real - job.avgRuntime;
            && t.status.Stopped? && t.nbrRuns == job.nbrRuns + 1
            && t.avgRuntime == job.avgRuntime + d / t.nbrRuns as real
            && t.varRuntime == job.varRuntime + d * (runtime as real - t.avgRuntime)
  {
  }

  lemma {:induction false} SumOfMean(runs: seq<Run>)
    ensures Sum(runs) == |runs| as real * (if runs == [] then 0.0 else Mean(runs))
  {
    if runs != [] {
      Share(Sum(runs), |runs| as real);
    }
  }

  lemma {:induction false} MeanMoves(n: real, m: real, x: real, e: real)
    requires x - m == (n + 1.0) * e
    ensures n * m + x == (n + 1.0) * (m + e)
  {
    Distribute(n + 1.0, m, e);
    Distribute(m, n, 1.0);
  }

  /** The sample variance, which README.md:154 names. */
  function SampleVariance(runs: seq<Run>): real
    requires |runs| > 1
  {
    SquaresFrom(runs, Mean(runs)) / (|runs| - 1) as real
  }

  lemma {:induction false} Square(d: real)
    ensures Squared(d) >= 0.0 && (Squared(d) == 0.0 <==> d == 0.0)
  {
    var p := if d < 0.0 then -d else d;
    Product(p, p);
    assert p > 0.0 ==> p * p > 0.0;
    assert d * d == p * p;
  }

  lemma {:induction false} SquaresAreZero(runs: seq<Run>, c: real)
    ensures SquaresFrom(runs, c) >= 0.0
    ensures SquaresFrom(runs, c) == 0.0 <==> forall i | 0 <= i < |runs| :: runs[i].Time() == c
  {
    if runs != [] {
      var n := |runs| - 1;
      SquaresAreZero(runs[..n], c);
      LastSquare(runs, c);
      hide SquaresFrom, Run.Time, Squared;
      Square(runs[n].Time() - c);
      assert forall i | 0 <= i < n :: runs[..n][i] == runs[i];
      if forall i | 0 <= i < |runs| :: runs[i].Time() == c {
        assert forall i | 0 <= i < n :: runs[..n][i].Time() == runs[i].Time();
      }
      if SquaresFrom(runs, c) == 0.0 {
        forall i | 0 <= i < |runs| ensures runs[i].Time() == c {
          assert i < n ==> runs[..n][i].Time() == c;
        }
      }
    }
  }

  lemma {:induction false} OnlyByOne(v: real, k: real)
    requires k >= 1.0 && v >= 0.0
    ensures v == v / k <==> v == 0.0 || k == 1.0
  {
    var w := v / k;
    Share(v, k);
    Distribute(w, k - 1.0, 1.0);
    assert v == (k - 1.0) * w + w;
    Product(k - 1.0, w);
    Product(k, w);
  }

  lemma {:induction false} Product(a: real, b: real)
    ensures a * b == 0.0 <==> a == 0.0 || b == 0.0
  {
    if a > 0.0 && b > 0.0 {
      assert a * b > 0.0;
    } else if a < 0.0 && b < 0.0 {
      assert (-a) * (-b) > 0.0;
    } else if a > 0.0 && b < 0.0 {
      assert a * (-b) > 0.0;
    } else if a < 0.0 && b > 0.0 {
      assert (-a) * b > 0.0;
    }
  }

  /** What the code keeps is the sample variance only for two runs, or when all runs took equally long. */
  lemma {:induction false} NotTheSampleVariance(db: Db, name: string, runs: seq<Run>)
    requires name in db && db[name].status.Stopped? && |runs| > 1
    requires db[name].nbrRuns == 0 && db[name].avgRuntime == 0.0 && db[name].varRuntime == 0.0
    ensures var t := AfterRuns(db, name, runs);
            name in t && (t[name].varRuntime == SampleVariance(runs)
                          <==> |runs| == 2 || forall i | 0 <= i < |runs| :: runs[i].Time() == Mean(runs))
  {
    hide AfterRuns, SquaresFrom, Mean;
    Statistics(db, name, runs);
    SquaresAreZero(runs, Mean(runs));
    OnlyByOne(SquaresFrom(runs, Mean(runs)), (|runs| - 1) as real);
  }
}
