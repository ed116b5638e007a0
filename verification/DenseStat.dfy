/** The plan of the sampled article sweep: every segment of the startup volumes,
    a few spread samples of each later one, fewer when there are many volumes. */
module DenseStat {

  datatype Job = Job(vol: nat, seg: int)

  const STARTUP_VOLUMES: nat := 2
  const MAX_TOTAL: nat := 2000

  // Integer division of the source: it rounds toward zero.
  function Quotient(a: int, b: int): int
    requires b > 0
  {
    if a < 0 then -((-a) / b) else a / b
  }

  function Full(counts: seq<nat>): nat {
    if STARTUP_VOLUMES > |counts| then |counts| else STARTUP_VOLUMES
  }

  /** The indices addVolume keeps of a list: those in range, each once. */
  function Picks(n: nat, indices: seq<int>): seq<int> {
    if indices == [] then []
    else
      var last := |indices| - 1;
      var before := Picks(n, indices[..last]);
      var idx := indices[last];
      before + if 0 <= idx < n && idx !in before then [idx] else []
  }

  function All(n: nat): seq<int> {
    seq(n, i => i)
  }

  function Samples(n: nat, perVol: int): seq<int> {
    if perVol >= 6 then [0, 1, n / 4, n / 2, (3 * n) / 4, n - 1]
    else if perVol >= 3 then [0, n / 2, n - 1]
    else [0, n - 1]
  }

  function Indices(counts: seq<nat>, v: nat, perVol: int): seq<int>
    requires v < |counts|
  {
    if v < Full(counts) then All(counts[v]) else Samples(counts[v], perVol)
  }

  function JobsOf(v: nat, picks: seq<int>): seq<Job> {
    seq(|picks|, i requires 0 <= i < |picks| => Job(v, picks[i]))
  }

  function VolumeJobs(counts: seq<nat>, v: nat, perVol: int): seq<Job>
    requires v < |counts|
  {
    JobsOf(v, Picks(counts[v], Indices(counts, v, perVol)))
  }

  function JobsBefore(counts: seq<nat>, m: nat, perVol: int): seq<Job>
    requires m <= |counts|
  {
    if m == 0 then [] else JobsBefore(counts, m - 1, perVol) + VolumeJobs(counts, m - 1, perVol)
  }

  function StartupJobs(counts: seq<nat>): seq<Job> {
    JobsBefore(counts, Full(counts), 6)
  }

  function SamplesPerVolume(startup: nat, rest: nat): int {
    if rest > 0 && MAX_TOTAL - startup < rest * 6 then
      var q := Quotient(MAX_TOTAL - startup, rest);
      if q < 2 then 2 else q
    else 6
  }

  function Plan(counts: seq<nat>): seq<Job> {
    JobsBefore(counts, |counts|, SamplesPerVolume(|StartupJobs(counts)|, |counts| - Full(counts)))
  }

  method AddVolume(jobs: seq<Job>, v: nat, n: nat, indices: seq<int>) returns (jobs': seq<Job>)
    ensures jobs' == jobs + JobsOf(v, Picks(n, indices))
  {
    var added: set<int> := {};
    jobs' := jobs;
    for i := 0 to |indices|
      invariant added == set x | x in Picks(n, indices[..i])
      invariant jobs' == jobs + JobsOf(v, Picks(n, indices[..i]))
    {
      assert indices[..i + 1][..i] == indices[..i];
      var idx := indices[i];
      if idx < 0 || idx >= n {
        continue;
      }
      if idx in added {
        continue;
      }
      added := added + {idx};
      jobs' := jobs' + [Job(v, idx)];
    }
    assert indices[..|indices|] == indices;
  }

  method SampleSize(startup: nat, rest: nat) returns (perVol: int)
    ensures perVol == SamplesPerVolume(startup, rest)
  {
    perVol := 6;
    if rest > 0 {
      var budget := MAX_TOTAL - startup;
      if budget < rest * perVol {
        perVol := Quotient(budget, rest);
        if perVol < 2 {
          perVol := 2;
        }
      }
    }
  }

  method PlanJobs(counts: seq<nat>) returns (jobs: seq<Job>)
    ensures jobs == Plan(counts)
  {
    jobs := [];
    var full := STARTUP_VOLUMES;
    if full > |counts| {
      full := |counts|;
    }
    for v := 0 to full
      invariant jobs == JobsBefore(counts, v, 6)
    {
      jobs := AddVolume(jobs, v, counts[v], All(counts[v]));
    }
    var perVol := SampleSize(|jobs|, |counts| - full);
    StartupIgnoresSamples(counts, full, 6, perVol);
    for v := full to |counts|
      invariant jobs == JobsBefore(counts, v, perVol)
    {
      jobs := AddVolume(jobs, v, counts[v], Samples(counts[v], perVol));
    }
  }

  lemma {:induction false} StartupIgnoresSamples(counts: seq<nat>, m: nat, p: int, q: int)
    requires m <= Full(counts)
    ensures JobsBefore(counts, m, p) == JobsBefore(counts, m, q)
  {
    if m > 0 { StartupIgnoresSamples(counts, m - 1, p, q); }
  }

  lemma {:induction false} PicksExactly(n: nat, indices: seq<int>)
    ensures forall x :: x in Picks(n, indices) <==> x in indices && 0 <= x < n
    ensures forall i, j :: 0 <= i < j < |Picks(n, indices)| ==> Picks(n, indices)[i] != Picks(n, indices)[j]
    ensures |Picks(n, indices)| <= |indices|
  {
    if indices != [] {
      var last := |indices| - 1;
      PicksExactly(n, indices[..last]);
      assert indices == indices[..last] + [indices[last]];
    }
  }

  ghost predicate Wanted(counts: seq<nat>, job: Job, perVol: int) {
    job.vol < |counts| && 0 <= job.seg < counts[job.vol] && job.seg in Indices(counts, job.vol, perVol)
  }

  ghost predicate NoRepeats(jobs: seq<Job>) {
    forall i, j :: 0 <= i < j < |jobs| ==> jobs[i] != jobs[j]
  }

  lemma VolumeExactly(counts: seq<nat>, v: nat, perVol: int)
    requires v < |counts|
    ensures NoRepeats(VolumeJobs(counts, v, perVol))
    ensures forall job: Job :: job in VolumeJobs(counts, v, perVol) <==> job.vol == v && Wanted(counts, job, perVol)
  {
    var picks := Picks(counts[v], Indices(counts, v, perVol));
    PicksExactly(counts[v], Indices(counts, v, perVol));
    forall job: Job | job in VolumeJobs(counts, v, perVol)
      ensures job.vol == v && Wanted(counts, job, perVol)
    {
      var i :| 0 <= i < |picks| && VolumeJobs(counts, v, perVol)[i] == job;
      assert picks[i] in picks;
    }
    forall job: Job | job.vol == v && Wanted(counts, job, perVol)
      ensures job in VolumeJobs(counts, v, perVol)
    {
      assert job.seg in picks;
      var i :| 0 <= i < |picks| && picks[i] == job.seg;
      assert VolumeJobs(counts, v, perVol)[i] == job;
    }
  }

  lemma {:induction false} JobsExactly(counts: seq<nat>, m: nat, perVol: int)
    requires m <= |counts|
    ensures NoRepeats(JobsBefore(counts, m, perVol))
    ensures forall job: Job :: job in JobsBefore(counts, m, perVol) <==> job.vol < m && Wanted(counts, job, perVol)
  {
    if m > 0 {
      JobsExactly(counts, m - 1, perVol);
      VolumeExactly(counts, m - 1, perVol);
      NoRepeatsJoined(JobsBefore(counts, m - 1, perVol), VolumeJobs(counts, m - 1, perVol));
    }
  }

  lemma NoRepeatsJoined(a: seq<Job>, b: seq<Job>)
    requires NoRepeats(a) && NoRepeats(b)
    requires forall job: Job :: job in a ==> job !in b
    ensures NoRepeats(a + b)
  {
    forall i, j | 0 <= i < j < |a + b| ensures (a + b)[i] != (a + b)[j] {
      if i < |a| <= j {
        assert a[i] in a && b[j - |a|] in b;
      }
    }
  }

  lemma {:induction false} SampledBound(counts: seq<nat>, m: nat, perVol: int, each: nat)
    requires Full(counts) <= m <= |counts|
    requires forall n: nat :: |Samples(n, perVol)| == each
    ensures |JobsBefore(counts, m, perVol)| <= |StartupJobs(counts)| + (m - Full(counts)) * each
  {
    if m == Full(counts) {
      StartupIgnoresSamples(counts, m, perVol, 6);
    } else {
      SampledBound(counts, m - 1, perVol, each);
      PicksExactly(counts[m - 1], Samples(counts[m - 1], perVol));
      assert (m - Full(counts)) * each == (m - 1 - Full(counts)) * each + each;
    }
  }

  /** No article is asked about twice; the startup volumes are covered in full and
      every later volume at both ends; only existing segments are asked about. */
  lemma PlanCovers(counts: seq<nat>)
    ensures NoRepeats(Plan(counts))
    ensures forall job: Job :: job in Plan(counts) ==> job.vol < |counts| && 0 <= job.seg < counts[job.vol]
    ensures forall v, s :: 0 <= v < |counts| && v < STARTUP_VOLUMES && 0 <= s < counts[v] ==> Job(v, s) in Plan(counts)
    ensures forall v :: 0 <= v < |counts| && counts[v] > 0 ==>
              Job(v, 0) in Plan(counts) && Job(v, counts[v] - 1) in Plan(counts)
  {
    var perVol := SamplesPerVolume(|StartupJobs(counts)|, |counts| - Full(counts));
    JobsExactly(counts, |counts|, perVol);
    forall v, s | 0 <= v < |counts| && v < STARTUP_VOLUMES && 0 <= s < counts[v]
      ensures Job(v, s) in Plan(counts)
    {
      assert All(counts[v])[s] == s;
      assert Wanted(counts, Job(v, s), perVol);
    }
    forall v | 0 <= v < |counts| && counts[v] > 0
      ensures Job(v, 0) in Plan(counts) && Job(v, counts[v] - 1) in Plan(counts)
    {
      if v < Full(counts) {
        assert All(counts[v])[0] == 0 && All(counts[v])[counts[v] - 1] == counts[v] - 1;
      }
      assert Wanted(counts, Job(v, 0), perVol) && Wanted(counts, Job(v, counts[v] - 1), perVol);
    }
  }

  /** The sweep stays within its budget, except for what it never skips. */
  lemma PlanIsBounded(counts: seq<nat>)
    ensures var never := |StartupJobs(counts)| + 2 * (|counts| - Full(counts));
            |Plan(counts)| <= if MAX_TOTAL < never then never else MAX_TOTAL
    ensures |counts| > STARTUP_VOLUMES ==> |StartupJobs(counts)| == counts[0] + counts[1]
  {
    var startup := |StartupJobs(counts)|;
    var rest := |counts| - Full(counts);
    var perVol := SamplesPerVolume(startup, rest);
    var each := if perVol >= 6 then 6 else if perVol >= 3 then 3 else 2;
    SampledBound(counts, |counts|, perVol, each);
    StartupSize(counts);
    SamplesFit(startup, rest, each);
  }

  lemma QuotientFits(budget: int, rest: nat)
    requires rest > 0
    ensures budget >= 0 ==> rest * Quotient(budget, rest) <= budget
    ensures budget < 0 ==> Quotient(budget, rest) <= 0
  {
  }

  lemma FewerFit(rest: nat, each: nat, perVol: nat)
    requires each <= perVol
    ensures rest * each <= rest * perVol
  {
  }

  lemma {:induction false} SamplesFit(startup: nat, rest: nat, each: nat)
    requires var perVol := SamplesPerVolume(startup, rest);
             each == if perVol >= 6 then 6 else if perVol >= 3 then 3 else 2
    ensures rest > 0 ==> startup + rest * each <= MAX_TOTAL || each == 2
  {
    var budget, perVol := MAX_TOTAL - startup, SamplesPerVolume(startup, rest);
    if rest > 0 && each > 2 {
      if budget < rest * 6 {
        QuotientFits(budget, rest);
        assert perVol == Quotient(budget, rest);
      }
      assert rest * perVol <= budget;
      FewerFit(rest, each, perVol);
    }
  }

  lemma {:induction false} PicksOfAll(n: nat, k: nat)
    requires k <= n
    ensures Picks(n, seq(k, i => i)) == seq(k, i => i)
  {
    if k > 0 {
      PicksOfAll(n, k - 1);
      assert seq(k, i => i)[..k - 1] == seq(k - 1, i => i);
    }
  }

  lemma StartupSize(counts: seq<nat>)
    ensures |counts| > STARTUP_VOLUMES ==> |StartupJobs(counts)| == counts[0] + counts[1]
    ensures |counts| <= STARTUP_VOLUMES ==> Plan(counts) == StartupJobs(counts)
  {
    if |counts| > STARTUP_VOLUMES {
      PicksOfAll(counts[0], counts[0]);
      PicksOfAll(counts[1], counts[1]);
      assert JobsBefore(counts, 2, 6) == JobsBefore(counts, 1, 6) + VolumeJobs(counts, 1, 6);
      assert JobsBefore(counts, 1, 6) == [] + VolumeJobs(counts, 0, 6);
    }
  }

  /** What the sweep asks about: the first two volumes in full, and of every later one both
      ends; its middle as well when three articles a volume fit the budget; and its second
      article and its quarters when six do. */
  lemma PlanAsksExactly(counts: seq<nat>, job: Job)
    ensures job in Plan(counts) <==>
            && job.vol < |counts| && 0 <= job.seg < counts[job.vol]
            && (|| job.vol < 2
                || job.seg == 0 || job.seg == counts[job.vol] - 1
                || (counts[0] + counts[1] + 3 * (|counts| - 2) <= 2000 && job.seg == counts[job.vol] / 2)
                || (counts[0] + counts[1] + 6 * (|counts| - 2) <= 2000
                    && (job.seg == 1 || job.seg == counts[job.vol] / 4 || job.seg == 3 * counts[job.vol] / 4)))
  {
    var perVol := SamplesPerVolume(|StartupJobs(counts)|, |counts| - Full(counts));
    JobsExactly(counts, |counts|, perVol);
    StartupSize(counts);
    if job.vol < |counts| {
      if job.vol < Full(counts) {
        if 0 <= job.seg < counts[job.vol] {
          assert All(counts[job.vol])[job.seg] == job.seg;
        }
      } else {
        SamplesAre(counts[0] + counts[1], |counts| - 2, counts[job.vol], job.seg);
      }
    }
  }

  lemma SamplesAre(startup: nat, rest: nat, n: nat, seg: int)
    requires rest > 0
    ensures seg in Samples(n, SamplesPerVolume(startup, rest)) <==>
            || seg == 0 || seg == n - 1
            || (startup + 3 * rest <= 2000 && seg == n / 2)
            || (startup + 6 * rest <= 2000 && (seg == 1 || seg == n / 4 || seg == 3 * n / 4))
  {
    ThreeFitExactlyWhen(2000 - startup, rest);
  }

  lemma ThreeFitExactlyWhen(budget: int, rest: nat)
    requires rest > 0
    ensures Quotient(budget, rest) >= 3 <==> 3 * rest <= budget
    ensures budget < 6 * rest ==> Quotient(budget, rest) < 6
  {
  }

  ghost predicate InOrder(jobs: seq<Job>) {
    forall i, j :: 0 <= i < j < |jobs| ==> jobs[i].vol <= jobs[j].vol
  }

  lemma OrderJoined(a: seq<Job>, b: seq<Job>, v: nat)
    requires InOrder(a) && (forall job: Job :: job in a ==> job.vol < v)
    requires forall i :: 0 <= i < |b| ==> b[i].vol == v
    ensures InOrder(a + b)
  {
    forall i, j | 0 <= i < j < |a + b| ensures (a + b)[i].vol <= (a + b)[j].vol {
      if i < |a| <= j {
        assert a[i] in a;
      }
    }
  }

  /** The volumes are asked about one after the other. */
  lemma {:induction false} VolumesComeInOrder(counts: seq<nat>, m: nat, perVol: int)
    requires m <= |counts|
    ensures InOrder(JobsBefore(counts, m, perVol))
  {
    if m > 0 {
      VolumesComeInOrder(counts, m - 1, perVol);
      JobsExactly(counts, m - 1, perVol);
      OrderJoined(JobsBefore(counts, m - 1, perVol), VolumeJobs(counts, m - 1, perVol), m - 1);
    }
  }
}
