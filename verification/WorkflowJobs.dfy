/** The job extractor of the workflow checker and its job-level verdicts. */
module WorkflowJobs {
  import opened Text
  import opened Dicts
  import opened Sequences
  import opened Sorting
  import opened WorkflowLines

  datatype Access = Write | Read

  datatype Job = Job(permissions: Option<Access>, needs: seq<string>, create: bool, upload: bool, edit: bool)

  const NEW_JOB := Job(None, [], false, false, false)

  // Where the extractor is within a job.
  datatype Cursor = Cursor(job: Job, inPermissions: bool, inNeeds: bool)

  const NEW_CURSOR := Cursor(NEW_JOB, false, false)

  type Jobs = seq<(string, Job)>

  // A line that opens a job; the jobs: key is recognised before it.
  predicate IsHeader(line: Line) { !line.jobsKey && line.header.Some? }

  // A line of a job that reaches none of the key branches.
  function PlainLine(c: Cursor, line: Line): Cursor {
    if c.inNeeds then
      if line.listItem.Some? then c.(job := c.job.(needs := c.job.needs + [line.listItem.value])) else c
    else if c.inPermissions then
      if line.contentsWrite then c.(job := c.job.(permissions := Some(Write)))
      else if line.contentsRead then c.(job := c.job.(permissions := Some(Read)))
      else c
    else
      c.(job := c.job.(create := c.job.create || line.create,
                       upload := c.job.upload || line.upload,
                       edit := c.job.edit || line.edit))
  }

  // A line of a job that is neither a jobs: key nor a header.
  function JobLine(c: Cursor, line: Line): Cursor {
    if line.permissionsKey then Cursor(c.job, true, false)
    else if line.permissionsInline then
      if line.inlineWrite then c.(job := c.job.(permissions := Some(Write)))
      else if line.inlineRead then c.(job := c.job.(permissions := Some(Read)))
      else c
    else if line.needsKey then Cursor(c.job, false, true)
    else if line.needsInline then Cursor(c.job.(needs := c.job.needs + line.inlineNeeds), false, true)
    else PlainLine(if line.jobKey then Cursor(c.job, false, false) else c, line)
  }

  // ----- the one-pass extractor -----

  datatype State = State(jobs: Jobs, name: Option<string>, cursor: Cursor, inJobs: bool)

  const START := State([], None, NEW_CURSOR, false)

  // Filing the current job, if there is one.
  function Filed(st: State): Jobs {
    if st.name.Some? then Put(st.jobs, st.name.value, st.cursor.job) else st.jobs
  }

  function Step(st: State, line: Line): State {
    if line.jobsKey then st.(inJobs := true)
    else if !st.inJobs then st
    else if line.header.Some? then State(Filed(st), line.header, NEW_CURSOR, true)
    else if st.name.Some? then st.(cursor := JobLine(st.cursor, line))
    else st
  }

  function Run(st: State, lines: seq<Line>): State
    decreases |lines|
  {
    if lines == [] then st else Run(Step(st, lines[0]), lines[1..])
  }

  // The jobs of a file, whatever its lines say.
  function ExtractedJobs(lines: seq<Line>): Jobs { Filed(Run(START, lines)) }

  method ExtractJobs(content: string) returns (jobs: Jobs)
    ensures jobs == ExtractedJobs(Map(Split(content, '\n'), LineOf))
  {
    var lines := Split(content, '\n');
    ghost var read := Map(lines, LineOf);
    jobs := [];
    var currentName: Option<string> := None;
    var job, inJobs, inPermissions, inNeeds := NEW_JOB, false, false, false;
    for i := 0 to |lines|
      invariant Run(START, read) ==
                Run(State(jobs, currentName, Cursor(job, inPermissions, inNeeds), inJobs), read[i..])
    {
      var line := LineOf(lines[i]);
      assert read[i..][0] == line && read[i..][1..] == read[i + 1..];
      if line.jobsKey {
        inJobs := true;
        continue;
      }
      if !inJobs {
        continue;
      }
      if line.header.Some? {
        if currentName.Some? {
          jobs := Put(jobs, currentName.value, job);
        }
        currentName := line.header;
        job, inPermissions, inNeeds := NEW_JOB, false, false;
        continue;
      }
      if currentName.Some? {
        job, inPermissions, inNeeds := ReadJobLine(job, inPermissions, inNeeds, line);
      }
    }
    if currentName.Some? {
      jobs := Put(jobs, currentName.value, job);
    }
  }

  method ReadJobLine(job0: Job, inPermissions0: bool, inNeeds0: bool, line: Line)
    returns (job: Job, inPermissions: bool, inNeeds: bool)
    ensures Cursor(job, inPermissions, inNeeds) == JobLine(Cursor(job0, inPermissions0, inNeeds0), line)
  {
    job, inPermissions, inNeeds := job0, inPermissions0, inNeeds0;
    if line.permissionsKey {
      inPermissions, inNeeds := true, false;
      return;
    }
    if line.permissionsInline {
      if line.inlineWrite {
        job := job.(permissions := Some(Write));
      } else if line.inlineRead {
        job := job.(permissions := Some(Read));
      }
      return;
    }
    if line.needsKey {
      inNeeds, inPermissions := true, false;
      return;
    }
    if line.needsInline {
      job := job.(needs := job.needs + line.inlineNeeds);
      inNeeds, inPermissions := true, false;
      return;
    }
    if line.jobKey {
      inPermissions, inNeeds := false, false;
    }
    if inNeeds {
      if line.listItem.Some? {
        job := job.(needs := job.needs + [line.listItem.value]);
      }
      return;
    }
    if inPermissions {
      if line.contentsWrite {
        job := job.(permissions := Some(Write));
      } else if line.contentsRead {
        job := job.(permissions := Some(Read));
      }
      return;
    }
    if line.create {
      job := job.(create := true);
    }
    if line.upload {
      job := job.(upload := true);
    }
    if line.edit {
      job := job.(edit := true);
    }
  }

  // ----- job by job -----

  // A job header and the lines up to the next one.
  datatype Block = Block(header: Line, body: seq<Line>)

  ghost predicate GoodBlock(b: Block) { IsHeader(b.header) && NoHeaders(b.body) }

  ghost predicate NoHeaders(lines: seq<Line>) { forall l | l in lines :: !IsHeader(l) }

  ghost predicate AllGood(bs: seq<Block>) { forall b | b in bs :: GoodBlock(b) }

  // A stray jobs: key is passed over.
  function BodyLine(c: Cursor, line: Line): Cursor { if line.jobsKey then c else JobLine(c, line) }

  // A body read on its own.
  function ReadBody(c: Cursor, body: seq<Line>): Cursor
    decreases |body|
  {
    if body == [] then c
    else ReadBody(BodyLine(c, body[0]), body[1..])
  }

  function BlockName(b: Block): string
    requires IsHeader(b.header)
  {
    b.header.header.value
  }

  function BlockJob(b: Block): (string, Job)
    requires IsHeader(b.header)
  {
    (BlockName(b), ReadBody(NEW_CURSOR, b.body).job)
  }

  ghost function BlockJobs(bs: seq<Block>): Jobs
    requires AllGood(bs)
  {
    if bs == [] then []
    else
      assert bs[0] in bs && forall b | b in bs[1..] :: b in bs;
      [BlockJob(bs[0])] + BlockJobs(bs[1..])
  }

  ghost function Flatten(bs: seq<Block>): seq<Line> {
    if bs == [] then [] else [bs[0].header] + bs[0].body + Flatten(bs[1..])
  }

  lemma AllGoodCons(bs: seq<Block>)
    requires bs != []
    ensures AllGood(bs) <==> GoodBlock(bs[0]) && AllGood(bs[1..])
  {
    assert bs == [bs[0]] + bs[1..];
  }

  lemma {:induction false} RunAppend(st: State, a: seq<Line>, b: seq<Line>)
    ensures Run(st, a + b) == Run(Run(st, a), b)
    decreases |a|
  {
    if a == [] {
      assert a + b == b;
    } else {
      assert (a + b)[1..] == a[1..] + b;
      RunAppend(Step(st, a[0]), a[1..], b);
    }
  }

  lemma {:induction false} RunBody(st: State, body: seq<Line>)
    requires st.inJobs && st.name.Some? && NoHeaders(body)
    ensures Run(st, body) == st.(cursor := ReadBody(st.cursor, body))
    decreases |body|
  {
    if body != [] {
      assert body[0] in body && forall l | l in body[1..] :: l in body;
      RunBody(Step(st, body[0]), body[1..]);
    }
  }

  // Running over one block files the job before it and leaves this one current.
  lemma RunBlock(st: State, b: Block)
    requires st.inJobs && GoodBlock(b)
    ensures Run(st, [b.header] + b.body) ==
            State(Filed(st), b.header.header, ReadBody(NEW_CURSOR, b.body), true)
    ensures Filed(Run(st, [b.header] + b.body)) == Put(Filed(st), BlockJob(b).0, BlockJob(b).1)
  {
    assert ([b.header] + b.body)[1..] == b.body;
    RunBody(Step(st, b.header), b.body);
  }

  lemma {:induction false} RunBlocks(st: State, bs: seq<Block>)
    requires st.inJobs && AllGood(bs)
    ensures Filed(Run(st, Flatten(bs))) == PutAll(Filed(st), BlockJobs(bs))
    decreases |bs|
  {
    if bs != [] {
      AllGoodCons(bs);
      var first, rest := [bs[0].header] + bs[0].body, bs[1..];
      RunAppend(st, first, Flatten(rest));
      RunBlock(st, bs[0]);
      RunBlocks(Run(st, first), rest);
      assert BlockJobs(bs)[1..] == BlockJobs(rest);
    }
  }

  // Lines before the jobs: key, or before the first header, leave no current job.
  lemma {:induction false} RunIdle(st: State, lines: seq<Line>)
    requires st.name.None? && ((!st.inJobs && forall l | l in lines :: !l.jobsKey) || NoHeaders(lines))
    ensures var r := Run(st, lines); r.name.None? && r.jobs == st.jobs && (st.inJobs ==> r.inJobs)
    decreases |lines|
  {
    if lines != [] {
      assert lines[0] in lines && forall l | l in lines[1..] :: l in lines;
      RunIdle(Step(st, lines[0]), lines[1..]);
    }
  }

  // The lines before the first jobs: key, that key, the lines before the first header behind it,
  // and the blocks, each with no header but its own.
  ghost predicate SplitsAs(lines: seq<Line>, intro: seq<Line>, jobsLine: Line, lead: seq<Line>, bs: seq<Block>) {
    && (forall l | l in intro :: !l.jobsKey)
    && jobsLine.jobsKey && NoHeaders(lead) && AllGood(bs)
    && lines == intro + ([jobsLine] + (lead + Flatten(bs)))
  }

  // Main result. One pass over the file gives what parsing each job block on its own gives:
  // no permission, need or command leaks from one job into another.
  lemma JobLocality(lines: seq<Line>, intro: seq<Line>, jobsLine: Line, lead: seq<Line>, bs: seq<Block>)
    requires SplitsAs(lines, intro, jobsLine, lead, bs)
    ensures ExtractedJobs(lines) == PutAll([], BlockJobs(bs))
  {
    RunAppend(START, intro, [jobsLine] + (lead + Flatten(bs)));
    RunIdle(START, intro);
    var st := Run(START, intro);
    assert ([jobsLine] + (lead + Flatten(bs)))[1..] == lead + Flatten(bs);
    RunAppend(Step(st, jobsLine), lead, Flatten(bs));
    RunIdle(Step(st, jobsLine), lead);
    RunBlocks(Run(Step(st, jobsLine), lead), bs);
  }

  // Every file with a jobs: key has that form: its lines split into what comes before the key,
  // what comes before the first job, and the job blocks.
  lemma {:induction false} SplitBlocks(lines: seq<Line>) returns (lead: seq<Line>, bs: seq<Block>)
    ensures NoHeaders(lead) && AllGood(bs) && lines == lead + Flatten(bs)
    decreases |lines|
  {
    if lines == [] {
      lead, bs := [], [];
    } else {
      var lead', bs' := SplitBlocks(lines[1..]);
      assert lines == [lines[0]] + lines[1..];
      if IsHeader(lines[0]) {
        lead, bs := [], [Block(lines[0], lead')] + bs';
        assert bs[1..] == bs';
        AllGoodCons(bs);
        assert [lines[0]] + (lead' + Flatten(bs')) == [lines[0]] + lead' + Flatten(bs');
      } else {
        lead, bs := [lines[0]] + lead', bs';
        assert [lines[0]] + (lead' + Flatten(bs')) == lead + Flatten(bs');
      }
    }
  }

  lemma {:induction false} SplitFile(lines: seq<Line>)
    returns (intro: seq<Line>, jobsLine: Line, lead: seq<Line>, bs: seq<Block>)
    requires exists l | l in lines :: l.jobsKey
    ensures SplitsAs(lines, intro, jobsLine, lead, bs)
    decreases |lines|
  {
    assert lines == [lines[0]] + lines[1..];
    if lines[0].jobsKey {
      intro, jobsLine := [], lines[0];
      lead, bs := SplitBlocks(lines[1..]);
    } else {
      intro, jobsLine, lead, bs := SplitFile(lines[1..]);
      assert [lines[0]] + (intro + ([jobsLine] + (lead + Flatten(bs))))
          == ([lines[0]] + intro) + ([jobsLine] + (lead + Flatten(bs)));
      intro := [lines[0]] + intro;
    }
  }

  // The blocks of any file; without a jobs: key it has none.
  ghost predicate BlocksOf(lines: seq<Line>, bs: seq<Block>) {
    if exists l | l in lines :: l.jobsKey
    then exists intro, jobsLine, lead :: SplitsAs(lines, intro, jobsLine, lead, bs)
    else bs == []
  }

  // What each name is bound to in any file: the job of the last block with that name, and
  // nothing if there is none.
  lemma LastBlockCounts(lines: seq<Line>, name: string) returns (bs: seq<Block>)
    ensures BlocksOf(lines, bs)
    ensures Get(ExtractedJobs(lines), name) == LastValue(BlockJobs(bs), name)
    ensures DistinctKeys(ExtractedJobs(lines))
  {
    if exists l | l in lines :: l.jobsKey {
      var intro, jobsLine, lead, bs' := SplitFile(lines);
      bs := bs';
      JobLocality(lines, intro, jobsLine, lead, bs);
    } else {
      bs := [];
      NoJobsKey(lines);
    }
    LastAssignmentWins(BlockJobs(bs), name);
  }

  lemma NoJobsKey(lines: seq<Line>)
    requires forall l | l in lines :: !l.jobsKey
    ensures ExtractedJobs(lines) == []
  {
    RunIdle(START, lines);
  }

  // ----- job-level verdicts -----

  datatype Rule = BuildReleaseCreate | BuildReleaseUpload | BuildReleaseEdit | PublishNoNeeds
                | MultiplePublishJobs | WorkflowLevelWrite

  datatype Violation = Violation(rule: Rule, job: Option<string>)

  predicate IsPublish(job: Job) { job.permissions == Some(Write) }

  function Reported(on: bool, rule: Rule, name: string): seq<Violation> {
    if on then [Violation(rule, Some(name))] else []
  }

  function JobViolations(item: (string, Job)): seq<Violation> {
    var (name, job) := item;
    if IsPublish(job) then Reported(job.needs == [], PublishNoNeeds, name)
    else Reported(job.create, BuildReleaseCreate, name)
         + Reported(job.upload, BuildReleaseUpload, name)
         + Reported(job.edit, BuildReleaseEdit, name)
  }

  function AllJobViolations(jobs: Jobs): seq<Violation> {
    if jobs == [] then [] else JobViolations(jobs[0]) + AllJobViolations(jobs[1..])
  }

  function PublishJobs(jobs: Jobs): set<string> {
    set item | item in jobs && IsPublish(item.1) :: item.0
  }

  // The violations that depend on the jobs, with the workflow-level permission as given.
  function Violations(jobs: Jobs, workflowWrite: bool, releaseWorkflow: bool): seq<Violation> {
    PublishViolations(PublishJobs(jobs), workflowWrite, releaseWorkflow) + AllJobViolations(jobs)
  }

  function PublishViolations(publish: set<string>, workflowWrite: bool, releaseWorkflow: bool): seq<Violation> {
    (if |publish| > 1 then [Violation(MultiplePublishJobs, None)] else [])
    + (if workflowWrite && (releaseWorkflow || publish == {}) then [Violation(WorkflowLevelWrite, None)] else [])
  }

  lemma PublishNext(jobs: Jobs, i: nat)
    requires i < |jobs|
    ensures PublishJobs(jobs[..i + 1]) == PublishJobs(jobs[..i]) + (if IsPublish(jobs[i].1) then {jobs[i].0} else {})
  {
    assert jobs[..i + 1] == jobs[..i] + [jobs[i]];
  }

  method FindPublish(jobs: Jobs) returns (publish: set<string>)
    ensures publish == PublishJobs(jobs)
  {
    publish := {};
    for i := 0 to |jobs|
      invariant publish == PublishJobs(jobs[..i])
    {
      PublishNext(jobs, i);
      if IsPublish(jobs[i].1) {
        publish := publish + {jobs[i].0};
      }
    }
    assert jobs[..|jobs|] == jobs;
  }

  method CheckJobs(jobs: Jobs, workflowWrite: bool, releaseWorkflow: bool) returns (violations: seq<Violation>)
    requires DistinctKeys(jobs)
    ensures violations == Violations(jobs, workflowWrite, releaseWorkflow)
  {
    violations := [];
    var publish := FindPublish(jobs);
    if |publish| > 1 {
      violations := violations + [Violation(MultiplePublishJobs, None)];
    }
    if workflowWrite {
      if releaseWorkflow {
        violations := violations + [Violation(WorkflowLevelWrite, None)];
      } else if publish == {} {
        violations := violations + [Violation(WorkflowLevelWrite, None)];
      }
    }
    assert violations == PublishViolations(publish, workflowWrite, releaseWorkflow);
    var perJob := CheckEachJob(jobs, publish);
    violations := violations + perJob;
  }

  method CheckEachJob(jobs: Jobs, publish: set<string>) returns (violations: seq<Violation>)
    requires DistinctKeys(jobs) && publish == PublishJobs(jobs)
    ensures violations == AllJobViolations(jobs)
  {
    violations := [];
    for i := 0 to |jobs|
      invariant AllJobViolations(jobs) == violations + AllJobViolations(jobs[i..])
    {
      WithinSuffix(jobs, i, 1, 1);
      PublishByName(jobs, i);
      var own := CheckJob(jobs[i].0, jobs[i].1, jobs[i].0 in publish);
      Assoc(violations, own, AllJobViolations(jobs[i + 1..]));
      violations := violations + own;
    }
  }

  method CheckJob(name: string, job: Job, isPublish: bool) returns (violations: seq<Violation>)
    requires isPublish == IsPublish(job)
    ensures violations == JobViolations((name, job))
  {
    violations := [];
    if !isPublish {
      if job.create {
        violations := violations + [Violation(BuildReleaseCreate, Some(name))];
      }
      if job.upload {
        violations := violations + [Violation(BuildReleaseUpload, Some(name))];
      }
      if job.edit {
        violations := violations + [Violation(BuildReleaseEdit, Some(name))];
      }
    }
    if isPublish && job.needs == [] {
      violations := violations + [Violation(PublishNoNeeds, Some(name))];
    }
  }

  lemma PublishByName(jobs: Jobs, i: nat)
    requires DistinctKeys(jobs) && i < |jobs|
    ensures jobs[i].0 in PublishJobs(jobs) <==> IsPublish(jobs[i].1)
  {
    if jobs[i].0 in PublishJobs(jobs) {
      var item :| item in jobs && IsPublish(item.1) && item.0 == jobs[i].0;
      var j :| 0 <= j < |jobs| && jobs[j] == item;
      assert i == j;
    }
    assert jobs[i] in jobs;
  }

  // ----- which rules are violated -----

  ghost predicate TwoPublish(jobs: Jobs) {
    exists a, b | a in jobs && b in jobs :: IsPublish(a.1) && IsPublish(b.1) && a.0 != b.0
  }

  ghost predicate NonePublishes(jobs: Jobs) { forall item | item in jobs :: item.1.permissions != Some(Write) }

  // For every dict of jobs: when a file breaks a rule for the whole file, and that a rule for one job
  // is broken by a job of that name.
  lemma FileRulesIff(jobs: Jobs, workflowWrite: bool, releaseWorkflow: bool)
    ensures var report := Violations(jobs, workflowWrite, releaseWorkflow);
            && (Violation(MultiplePublishJobs, None) in report <==> TwoPublish(jobs))
            && (Violation(WorkflowLevelWrite, None) in report <==>
                workflowWrite && (releaseWorkflow || NonePublishes(jobs)))
    ensures forall rule, name ::
              Violation(rule, Some(name)) in Violations(jobs, workflowWrite, releaseWorkflow) <==>
              exists item | item in jobs :: item.0 == name && Violation(rule, Some(name)) in JobViolations(item)
  {
    SeveralPublish(jobs);
    NonePublishesIff(jobs);
    ViolationIff(jobs, workflowWrite, releaseWorkflow, Violation(MultiplePublishJobs, None));
    ViolationIff(jobs, workflowWrite, releaseWorkflow, Violation(WorkflowLevelWrite, None));
    forall rule, name
      ensures Violation(rule, Some(name)) in Violations(jobs, workflowWrite, releaseWorkflow) <==>
              exists item | item in jobs :: item.0 == name && Violation(rule, Some(name)) in JobViolations(item)
    {
      ViolationIff(jobs, workflowWrite, releaseWorkflow, Violation(rule, Some(name)));
    }
  }

  // The report: first what concerns the whole file, then job by job.
  lemma ReportOrder(jobs: Jobs, workflowWrite: bool, releaseWorkflow: bool)
    ensures var report := Violations(jobs, workflowWrite, releaseWorkflow);
            && (forall p, q | 0 <= p < q < |report| && report[q].job.None? :: report[p].job.None?)
            && (forall p | 0 < p < |report| && report[p].job.None? :: report[0].rule == MultiplePublishJobs)
  {
    var all := AllJobViolations(jobs);
    forall v | v in all ensures v.job.Some? { JobViolationSource(jobs, v); }
    forall i | 0 <= i < |all| ensures all[i].job.Some? { assert all[i] in all; }
  }

  // A violation is one of the whole file, or one of some job and names it.
  lemma ViolationIff(jobs: Jobs, workflowWrite: bool, releaseWorkflow: bool, v: Violation)
    ensures v in Violations(jobs, workflowWrite, releaseWorkflow) <==>
            if v.job.None? then v in PublishViolations(PublishJobs(jobs), workflowWrite, releaseWorkflow)
            else exists item | item in jobs :: Some(item.0) == v.job && v in JobViolations(item)
  {
    AppendMember(PublishViolations(PublishJobs(jobs), workflowWrite, releaseWorkflow), AllJobViolations(jobs), v);
    JobViolationSource(jobs, v);
    forall item | item in jobs && v in JobViolations(item) ensures v.job == Some(item.0) {}
  }

  lemma {:induction false} JobViolationSource(jobs: Jobs, v: Violation)
    ensures v in AllJobViolations(jobs) <==> exists item | item in jobs :: v in JobViolations(item)
  {
    if jobs != [] {
      JobViolationSource(jobs[1..], v);
      AppendMember(JobViolations(jobs[0]), AllJobViolations(jobs[1..]), v);
      assert jobs == [jobs[0]] + jobs[1..];
    }
  }

  lemma SeveralPublish(jobs: Jobs)
    ensures |PublishJobs(jobs)| > 1 <==> TwoPublish(jobs)
  {
    var names := PublishJobs(jobs);
    if |names| > 1 {
      var x :| x in names;
      assert |names - {x}| > 0;
      var y :| y in names - {x};
      var a :| a in jobs && IsPublish(a.1) && a.0 == x;
      var b :| b in jobs && IsPublish(b.1) && b.0 == y;
    }
    if a, b :| a in jobs && b in jobs && IsPublish(a.1) && IsPublish(b.1) && a.0 != b.0 {
      assert {a.0, b.0} <= names;
      SubsetSize({a.0, b.0}, names);
    }
  }

  lemma SubsetSize(s: set<string>, t: set<string>)
    requires s <= t
    ensures |s| <= |t|
  {
    assert t == s + (t - s);
  }

  lemma NonePublishesIff(jobs: Jobs)
    ensures PublishJobs(jobs) == {} <==> NonePublishes(jobs)
  {
    if PublishJobs(jobs) == {} {
      forall item | item in jobs ensures item.1.permissions != Some(Write) {
        assert item.0 !in PublishJobs(jobs);
      }
    }
  }

  // ----- the order of jobs does not matter -----

  lemma {:induction false} ViolationsAppend(a: Jobs, b: Jobs)
    ensures AllJobViolations(a + b) == AllJobViolations(a) + AllJobViolations(b)
  {
    if a == [] {
      assert a + b == b;
    } else {
      assert (a + b)[1..] == a[1..] + b;
      ViolationsAppend(a[1..], b);
    }
  }

  lemma {:induction false} ViolationsPermute(a: Jobs, b: Jobs)
    requires multiset(a) == multiset(b)
    ensures multiset(AllJobViolations(a)) == multiset(AllJobViolations(b))
  {
    MultisetMembers(a, b);
    if a != [] {
      var k := TakeFirst(a, b);
      var rest := b[..k] + b[k + 1..];
      ViolationsPermute(a[1..], rest);
      ViolationsAppend(b[..k], [b[k]] + b[k + 1..]);
      ViolationsAppend([b[k]], b[k + 1..]);
      ViolationsAppend(b[..k], b[k + 1..]);
      assert AllJobViolations([b[k]]) == JobViolations(b[k]) by { assert [b[k]][1..] == []; }
    }
  }

  lemma {:induction false} BlockJobsAt(bs: seq<Block>)
    requires AllGood(bs)
    ensures |BlockJobs(bs)| == |bs|
    ensures forall i | 0 <= i < |bs| :: GoodBlock(bs[i]) && BlockJobs(bs)[i] == BlockJob(bs[i])
  {
    if bs != [] {
      AllGoodCons(bs);
      BlockJobsAt(bs[1..]);
    }
  }

  lemma BlockJobsAppend(a: seq<Block>, b: seq<Block>)
    requires AllGood(a) && AllGood(b)
    ensures AllGood(a + b) && BlockJobs(a + b) == BlockJobs(a) + BlockJobs(b)
  {
    BlockJobsAt(a);
    BlockJobsAt(b);
    BlockJobsAt(a + b);
  }

  lemma AllGoodParts(a: seq<Block>, b: seq<Block>)
    ensures AllGood(a + b) <==> AllGood(a) && AllGood(b)
  {}

  lemma BlockJobsAround(a: seq<Block>, x: Block, b: seq<Block>)
    requires AllGood(a) && GoodBlock(x) && AllGood(b)
    ensures AllGood(a + ([x] + b)) && AllGood(a + b)
    ensures multiset(BlockJobs(a + ([x] + b))) == multiset{BlockJob(x)} + multiset(BlockJobs(a + b))
  {
    BlockJobsAppend([x], b);
    BlockJobsAppend(a, [x] + b);
    BlockJobsAppend(a, b);
    BlockJobsAt([x]);
    assert BlockJobs([x]) == [BlockJob(x)];
    MiddleOut(BlockJobs(a), BlockJob(x), BlockJobs(b));
  }

  lemma BlockJobsWithout(bs: seq<Block>, k: nat)
    requires AllGood(bs) && k < |bs|
    ensures GoodBlock(bs[k]) && AllGood(bs[..k] + bs[k + 1..])
    ensures multiset(BlockJobs(bs)) == multiset{BlockJob(bs[k])} + multiset(BlockJobs(bs[..k] + bs[k + 1..]))
  {
    var a, b := bs[..k], bs[k + 1..];
    WithoutOne(bs, k);
    AllGoodParts(a, [bs[k]] + b);
    AllGoodParts([bs[k]], b);
    assert bs[k] in bs;
    BlockJobsAround(a, bs[k], b);
  }

  lemma {:induction false} BlockJobsPermute(a: seq<Block>, b: seq<Block>)
    requires AllGood(a) && AllGood(b) && multiset(a) == multiset(b)
    ensures multiset(BlockJobs(a)) == multiset(BlockJobs(b))
  {
    MultisetMembers(a, b);
    if a != [] {
      var k := TakeFirst(a, b);
      BlockJobsWithout(b, k);
      BlockJobsWithout(a, 0);
      assert a[..0] + a[1..] == a[1..];
      BlockJobsPermute(a[1..], b[..k] + b[k + 1..]);
    }
  }

  ghost predicate DistinctBlocks(bs: seq<Block>)
    requires AllGood(bs)
  {
    DistinctKeys(BlockJobs(bs))
  }

  // Two files with the same job blocks in any order, under distinct names, have the same multiset
  // of job-level violations, whatever comes before the jobs in either.
  lemma JobOrderIrrelevant(first: seq<Line>, second: seq<Line>, a: seq<Block>, b: seq<Block>,
                           workflowWrite: bool, releaseWorkflow: bool)
    requires BlocksOf(first, a) && BlocksOf(second, b)
    requires multiset(a) == multiset(b) && AllGood(a) && AllGood(b) && DistinctBlocks(a)
    ensures multiset(Violations(ExtractedJobs(first), workflowWrite, releaseWorkflow)) ==
            multiset(Violations(ExtractedJobs(second), workflowWrite, releaseWorkflow))
  {
    BlockJobsPermute(a, b);
    var ja, jb := BlockJobs(a), BlockJobs(b);
    DistinctKeysPermute(ja, jb);
    FileJobs(first, a);
    FileJobs(second, b);
    MultisetMembers(ja, jb);
    assert PublishJobs(ja) == PublishJobs(jb);
    ViolationsPermute(ja, jb);
  }

  lemma FileJobs(lines: seq<Line>, bs: seq<Block>)
    requires BlocksOf(lines, bs) && AllGood(bs) && DistinctBlocks(bs)
    ensures ExtractedJobs(lines) == BlockJobs(bs)
  {
    if exists l | l in lines :: l.jobsKey {
      var intro, jobsLine, lead :| SplitsAs(lines, intro, jobsLine, lead, bs);
      JobLocality(lines, intro, jobsLine, lead, bs);
      assert [] + BlockJobs(bs) == BlockJobs(bs);
      PutAllFresh([], BlockJobs(bs));
    } else {
      NoJobsKey(lines);
    }
  }

  lemma DistinctKeysPermute(a: Jobs, b: Jobs)
    requires multiset(a) == multiset(b) && DistinctKeys(a)
    ensures DistinctKeys(b)
  {
    MultisetMembers(a, b);
    forall i, j | 0 <= i < j < |b| ensures b[i].0 != b[j].0 {
      DistinctPermutation(a, b, i, j);
      assert b[i] in a && b[j] in a;
      var x :| 0 <= x < |a| && a[x] == b[i];
      var y :| 0 <= y < |a| && a[y] == b[j];
      assert x < y || y < x;
    }
  }

  // ----- needs that are missed -----

  // The needs a line adds to its job.
  function NeedsOf(raw: string, inNeeds: bool): seq<string> {
    var line := LineOf(raw);
    if line.needsInline then line.inlineNeeds
    else if inNeeds && line.listItem.Some? then [line.listItem.value]
    else []
  }

  lemma ItemStarts(stripped: string)
    requires ListItem(stripped).Some?
    ensures var tight := LStrip(stripped, PySpace);
            |tight| >= 2 && tight[0] == '-' && PySpace(tight[1]) && !KeyLine(tight)
  {
    var a, b, rest := ItemParts(stripped);
    var t := "-" + (b + (ListItem(stripped).value + rest));
    LStripBlank(a, t);
    assert t[1] == b[0] && b[0] in b && KeyRun(t[1..]) == 0;
  }

  // No line is needs and another key, or needs and an item.
  lemma OneKind(raw: string)
    ensures var line := LineOf(raw);
            && (line.needsKey || line.needsInline || line.listItem.Some? ==>
                !line.jobsKey && !line.permissionsKey && !line.permissionsInline)
            && !(line.needsKey && line.needsInline)
            && (line.listItem.Some? ==> !line.jobKey && !line.needsKey && !line.needsInline)
  {
    if ListItem(RStrip(raw, PySpace)).Some? { ItemStarts(RStrip(raw, PySpace)); }
  }

  // What one line does to the needs, for every line and wherever it stands in the job; if it adds
  // some it changes nothing else.
  lemma LineNeeds(c: Cursor, raw: string)
    ensures var d := BodyLine(c, LineOf(raw));
            && d.job.needs == c.job.needs + NeedsOf(raw, c.inNeeds)
            && (InlineNeedsLine(LStrip(RStrip(raw, PySpace), PySpace)) || AddsNeed(raw, c.inNeeds) ==>
                d.job == c.job.(needs := c.job.needs + NeedsOf(raw, c.inNeeds)))
            && (d.job.needs == c.job.needs <==> !AddsNeed(raw, c.inNeeds))
            && d.inNeeds == LeavesNeeds(raw, c.inNeeds)
  {
    OneKind(raw);
    var line := LineOf(raw);
    LineAdds(c, line, NeedsOf(raw, c.inNeeds));
    NothingAdded(c.job.needs, NeedsOf(raw, c.inNeeds));
    AddsNeedIff(raw, c.inNeeds);
    LineLeaves(c, raw);
  }

  lemma LineAdds(c: Cursor, line: Line, added: seq<string>)
    requires line.needsInline ==> !line.needsKey && !line.jobsKey && !line.permissionsKey && !line.permissionsInline
    requires line.listItem.Some? ==> !line.jobsKey && !line.permissionsKey && !line.permissionsInline
    requires line.listItem.Some? ==> !line.jobKey && !line.needsKey && !line.needsInline
    requires added == if line.needsInline then line.inlineNeeds
                      else if c.inNeeds && line.listItem.Some? then [line.listItem.value] else []
    ensures BodyLine(c, line).job.needs == c.job.needs + added
    ensures line.needsInline || added != [] ==> BodyLine(c, line).job == c.job.(needs := c.job.needs + added)
  {
    assert c.job.needs + [] == c.job.needs;
  }

  lemma AddsNeedIff(raw: string, inNeeds: bool)
    ensures NeedsOf(raw, inNeeds) == [] <==> !AddsNeed(raw, inNeeds)
  {
    var stripped := RStrip(raw, PySpace);
    var tight := LStrip(stripped, PySpace);
    if InlineNeedsLine(tight) { InlineNeedsNone(stripped, tight); }
  }

  lemma LineLeaves(c: Cursor, raw: string)
    ensures BodyLine(c, LineOf(raw)).inNeeds == LeavesNeeds(raw, c.inNeeds)
  {
    OneKind(raw);
    var line := LineOf(raw);
    if line.jobsKey {
      var tight := LStrip(RStrip(raw, PySpace), PySpace);
      assert tight == "jobs:";
      JobsNotIndented(raw);
    }
  }

  lemma JobsNotIndented(raw: string)
    requires RStrip(raw, PySpace) == "jobs:"
    ensures Indent(raw) == 0
  {
    RStripPrefix(raw, "jobs:", PySpace);
    assert raw[0] == 'j';
  }

  lemma NothingAdded(s: seq<string>, t: seq<string>)
    ensures s + t == s <==> t == []
  {
    assert |s + t| == |s| + |t|;
    if t == [] { assert s + t == s; }
  }

  function RawBody(body: seq<string>): Cursor { ReadBody(NEW_CURSOR, Map(body, LineOf)) }

  // Whether a line behind these stands in the needs of the job.
  predicate InNeeds(body: seq<string>) {
    body != [] && LeavesNeeds(body[|body| - 1], InNeeds(body[..|body| - 1]))
  }

  lemma {:induction false} ReadLast(c: Cursor, body: seq<Line>)
    requires body != []
    ensures ReadBody(c, body) == BodyLine(ReadBody(c, body[..|body| - 1]), body[|body| - 1])
    decreases |body|
  {
    if |body| > 1 {
      assert body[1..][..|body[1..]| - 1] == body[..|body| - 1][1..];
      ReadLast(BodyLine(c, body[0]), body[1..]);
    }
  }

  lemma ReadNext(body: seq<string>)
    requires body != []
    ensures RawBody(body) == BodyLine(RawBody(body[..|body| - 1]), LineOf(body[|body| - 1]))
  {
    ReadLast(NEW_CURSOR, Map(body, LineOf));
    MapTake(body, LineOf, |body| - 1);
  }

  // Whether a line of a body adds a need.
  predicate AddsAt(body: seq<string>, i: nat)
    requires i < |body|
  {
    AddsNeed(body[i], InNeeds(body[..i]))
  }

  predicate AddsNone(body: seq<string>) { forall i | 0 <= i < |body| :: !AddsAt(body, i) }

  lemma AddsInFront(body: seq<string>, n: nat, i: nat)
    requires i < n <= |body|
    ensures AddsAt(body[..n], i) == AddsAt(body, i)
  {
    assert body[..n][..i] == body[..i];
  }

  lemma AddsNoneLast(body: seq<string>)
    requires body != []
    ensures var n := |body| - 1;
            AddsNone(body) <==> AddsNone(body[..n]) && !AddsAt(body, n)
  {
    var n := |body| - 1;
    forall i | 0 <= i < n ensures AddsAt(body[..n], i) == AddsAt(body, i) { AddsInFront(body, n, i); }
  }

  lemma {:induction false} BodyNeeds(body: seq<string>)
    ensures RawBody(body).inNeeds == InNeeds(body)
    ensures RawBody(body).job.needs == [] <==> AddsNone(body)
  {
    if body != [] {
      var front := body[..|body| - 1];
      BodyNeeds(front);
      ReadNext(body);
      LineNeeds(RawBody(front), body[|body| - 1]);
      AddsNoneLast(body);
    }
  }

  // ----- permissions and commands -----

  function Trimmed(raw: string): string { LStrip(RStrip(raw, PySpace), PySpace) }

  // A line that is none of the keys looked for.
  predicate NoKey(raw: string) {
    var tight := Trimmed(raw);
    tight != "permissions:" && !InlinePermissions(tight) && tight != "needs:" && !InlineNeedsLine(tight)
  }

  // Another key of the job ends what was open.
  predicate EndsLists(raw: string) { Indent(raw) == 4 && KeyLine(Trimmed(raw)) }

  predicate UnderPermissions(raw: string, inNeeds: bool, inPermissions: bool) {
    NoKey(raw) && !EndsLists(raw) && !inNeeds && inPermissions
  }

  predicate UnderNothing(raw: string, inNeeds: bool, inPermissions: bool) {
    NoKey(raw) && (EndsLists(raw) || (!inNeeds && !inPermissions))
  }

  // A line that sets the permission to the given word.
  predicate Says(raw: string, word: string, inNeeds: bool, inPermissions: bool) {
    if InlinePermissions(Trimmed(raw)) then Contains(RStrip(raw, PySpace), "contents: " + word)
    else UnderPermissions(raw, inNeeds, inPermissions) && Words(RStrip(raw, PySpace), "contents:", word)
  }

  // The permission a line sets; write counts before read.
  function AccessOf(raw: string, inNeeds: bool, inPermissions: bool): Option<Access> {
    if Says(raw, "write", inNeeds, inPermissions) then Some(Write)
    else if Says(raw, "read", inNeeds, inPermissions) then Some(Read)
    else None
  }

  // A line of the job that runs a command.
  predicate Runs(raw: string, command: string, inNeeds: bool, inPermissions: bool) {
    UnderNothing(raw, inNeeds, inPermissions) && Contains(RStrip(raw, PySpace), command)
  }

  // Whether the line behind it stands under permissions.
  predicate LeavesPermissions(raw: string, inPermissions: bool) {
    || Trimmed(raw) == "permissions:"
    || (inPermissions && (InlinePermissions(Trimmed(raw)) || (NoKey(raw) && !EndsLists(raw))))
  }

  // What one line does to the permission and the commands, for every line and wherever it stands.
  lemma LineAccess(c: Cursor, raw: string)
    ensures var d, given := BodyLine(c, LineOf(raw)), AccessOf(raw, c.inNeeds, c.inPermissions);
            && d.job.permissions == (if given.Some? then given else c.job.permissions)
            && d.inPermissions == LeavesPermissions(raw, c.inPermissions)
  {
    if LineOf(raw).jobsKey { JobsLine(c, raw); } else { JobLineAccess(c, raw); }
  }

  lemma LineCommands(c: Cursor, raw: string)
    ensures var d := BodyLine(c, LineOf(raw));
            && d.job.create == (c.job.create || Runs(raw, "gh release create", c.inNeeds, c.inPermissions))
            && d.job.upload == (c.job.upload || Runs(raw, "gh release upload", c.inNeeds, c.inPermissions))
            && d.job.edit == (c.job.edit || Runs(raw, "gh release edit", c.inNeeds, c.inPermissions))
  {
    if LineOf(raw).jobsKey { JobsLine(c, raw); }
  }

  lemma JobLineAccess(c: Cursor, raw: string)
    ensures var d, given := JobLine(c, LineOf(raw)), AccessOf(raw, c.inNeeds, c.inPermissions);
            && d.job.permissions == (if given.Some? then given else c.job.permissions)
            && d.inPermissions == LeavesPermissions(raw, c.inPermissions)
  {
    assert "contents: " + "write" == "contents: write" && "contents: " + "read" == "contents: read";
  }

  // A stray jobs: key says nothing.
  lemma JobsLine(c: Cursor, raw: string)
    requires LineOf(raw).jobsKey
    ensures AccessOf(raw, c.inNeeds, c.inPermissions) == None
    ensures LeavesPermissions(raw, c.inPermissions) == c.inPermissions
    ensures !Contains(RStrip(raw, PySpace), "gh release create") && !Contains(RStrip(raw, PySpace), "gh release upload")
    ensures !Contains(RStrip(raw, PySpace), "gh release edit")
  {
    JobsNotIndented(raw);
    var s := "jobs:";
    assert Trimmed(raw) == s && 'g' !in s && 'c' !in s;
    assert "gh release create"[0] == 'g' && "gh release upload"[0] == 'g' && "gh release edit"[0] == 'g';
    MissingChar(s, "gh release create", 'g');
    MissingChar(s, "gh release upload", 'g');
    MissingChar(s, "gh release edit", 'g');
    assert "contents:"[0] == 'c';
    forall word, i | 0 <= i <= |s| ensures !WordsAt(s, "contents:", word, i) {
      assert i < |s| ==> s[i..][0] == s[i];
    }
  }

  // Whether a line behind these stands under permissions.
  predicate InPermissions(body: seq<string>) {
    body != [] && LeavesPermissions(body[|body| - 1], InPermissions(body[..|body| - 1]))
  }

  // What the lines of a body set, by their places.
  function AccessIn(body: seq<string>): nat -> Option<Access> {
    (i: nat) => if i < |body| then AccessOf(body[i], InNeeds(body[..i]), InPermissions(body[..i])) else None
  }

  predicate RunsAt(body: seq<string>, command: string, i: nat)
    requires i < |body|
  {
    Runs(body[i], command, InNeeds(body[..i]), InPermissions(body[..i]))
  }

  // The last of the first n values is this one.
  ghost predicate LastIs<T>(f: nat -> Option<T>, n: nat, x: T) {
    exists i: nat | i < n :: f(i) == Some(x) && forall j: nat | i < j < n :: f(j).None?
  }

  lemma LastIsNext<T>(f: nat -> Option<T>, g: nat -> Option<T>, n: nat, x: T)
    requires forall i: nat | i < n :: f(i) == g(i)
    ensures LastIs(f, n + 1, x) <==> if f(n).Some? then f(n) == Some(x) else LastIs(g, n, x)
  {
    if f(n).None? {
      if i: nat :| i < n && g(i) == Some(x) && forall j: nat | i < j < n :: g(j).None? { assert f(i) == Some(x); }
      if i: nat :| i < n + 1 && f(i) == Some(x) && forall j: nat | i < j < n + 1 :: f(j).None? {
        assert g(i) == Some(x);
      }
    }
  }

  // The last line that sets the permission sets it to this.
  ghost predicate Decided(body: seq<string>, access: Access) { LastIs(AccessIn(body), |body|, access) }

  ghost predicate SomeRuns(body: seq<string>, command: string) {
    exists i | 0 <= i < |body| :: RunsAt(body, command, i)
  }

  lemma AccessInFront(body: seq<string>, n: nat, i: nat)
    requires i < n <= |body|
    ensures AccessIn(body[..n])(i) == AccessIn(body)(i)
  {
    assert body[..n][..i] == body[..i];
  }

  lemma RunsInFront(body: seq<string>, command: string, n: nat, i: nat)
    requires i < n <= |body|
    ensures RunsAt(body[..n], command, i) == RunsAt(body, command, i)
  {
    assert body[..n][..i] == body[..i];
  }

  lemma DecidedLast(body: seq<string>, access: Access)
    requires body != []
    ensures var n := |body| - 1;
            Decided(body, access) <==>
            if AccessIn(body)(n).Some? then AccessIn(body)(n) == Some(access) else Decided(body[..n], access)
  {
    var n := |body| - 1;
    forall i: nat | i < n ensures AccessIn(body)(i) == AccessIn(body[..n])(i) { AccessInFront(body, n, i); }
    LastIsNext(AccessIn(body), AccessIn(body[..n]), n, access);
  }

  lemma RunsLast(body: seq<string>, command: string)
    requires body != []
    ensures var n := |body| - 1; SomeRuns(body, command) <==> SomeRuns(body[..n], command) || RunsAt(body, command, n)
  {
    var n := |body| - 1;
    forall i | 0 <= i < n ensures RunsAt(body[..n], command, i) == RunsAt(body, command, i) {
      RunsInFront(body, command, n, i);
    }
    if i :| 0 <= i < n && RunsAt(body[..n], command, i) { assert RunsAt(body, command, i); }
  }

  lemma {:induction false} BodyPlace(body: seq<string>)
    ensures RawBody(body).inPermissions == InPermissions(body)
  {
    if body != [] {
      var n := |body| - 1;
      BodyPlace(body[..n]);
      ReadNext(body);
      LineAccess(RawBody(body[..n]), body[n]);
    }
  }

  lemma AccessNext(body: seq<string>)
    requires body != []
    ensures var n := |body| - 1;
            RawBody(body).job.permissions ==
            if AccessIn(body)(n).Some? then AccessIn(body)(n) else RawBody(body[..n]).job.permissions
  {
    var n := |body| - 1;
    BodyPlace(body[..n]);
    BodyNeeds(body[..n]);
    ReadNext(body);
    LineAccess(RawBody(body[..n]), body[n]);
  }

  lemma {:induction false} BodyAccess(body: seq<string>, access: Access)
    ensures RawBody(body).job.permissions == Some(access) <==> Decided(body, access)
  {
    if body == [] {
      assert RawBody(body) == NEW_CURSOR;
    } else {
      BodyAccess(body[..|body| - 1], access);
      AccessNext(body);
      DecidedLast(body, access);
    }
  }

  lemma {:induction false} BodyCommands(body: seq<string>)
    ensures var job := RawBody(body).job;
            && job.create == SomeRuns(body, "gh release create") && job.upload == SomeRuns(body, "gh release upload")
            && job.edit == SomeRuns(body, "gh release edit")
  {
    if body != [] {
      var front := body[..|body| - 1];
      BodyCommands(front);
      BodyNeeds(front);
      BodyPlace(front);
      ReadNext(body);
      LineCommands(RawBody(front), body[|body| - 1]);
      RunsLast(body, "gh release create");
      RunsLast(body, "gh release upload");
      RunsLast(body, "gh release edit");
    }
  }

  // Main result. For every block of a file, in terms of its lines: its job publishes exactly when
  // the last line that sets a permission grants write. Then it is reported exactly when no line adds
  // a need; otherwise each release command is reported exactly when some line outside needs and
  // permissions has it.
  lemma ReportedIff(header: Line, body: seq<string>)
    requires IsHeader(header)
    ensures var item := BlockJob(Block(header, Map(body, LineOf)));
            var name, report, publishes := Some(item.0), JobViolations(item), Decided(body, Write);
            && (IsPublish(item.1) <==> publishes)
            && (Violation(PublishNoNeeds, name) in report <==> publishes && AddsNone(body))
            && (Violation(BuildReleaseCreate, name) in report <==> !publishes && SomeRuns(body, "gh release create"))
            && (Violation(BuildReleaseUpload, name) in report <==> !publishes && SomeRuns(body, "gh release upload"))
            && (Violation(BuildReleaseEdit, name) in report <==> !publishes && SomeRuns(body, "gh release edit"))
  {
    BodyNeeds(body);
    BodyAccess(body, Write);
    BodyCommands(body);
    JobReported(BlockName(Block(header, Map(body, LineOf))), RawBody(body).job);
  }

  lemma JobReported(name: string, job: Job)
    ensures var report := JobViolations((name, job));
            && (Violation(PublishNoNeeds, Some(name)) in report <==> IsPublish(job) && job.needs == [])
            && (Violation(BuildReleaseCreate, Some(name)) in report <==> !IsPublish(job) && job.create)
            && (Violation(BuildReleaseUpload, Some(name)) in report <==> !IsPublish(job) && job.upload)
            && (Violation(BuildReleaseEdit, Some(name)) in report <==> !IsPublish(job) && job.edit)
  {}

  // ----- spellings of a need that is missed -----

  // The job of a name, read up to c, behind these lines.
  function Behind(c: Cursor, lines: seq<string>): Cursor { ReadBody(c, Map(lines, LineOf)) }

  function Report(c: Cursor, name: string, lines: seq<string>): seq<Violation> {
    JobViolations((name, Behind(c, lines).job))
  }

  ghost predicate Needless(c: Cursor) { IsPublish(c.job) && c.job.needs == [] }

  lemma NeedlessReport(c: Cursor, name: string)
    requires IsPublish(c.job)
    ensures JobViolations((name, c.job)) == if Needless(c) then [Violation(PublishNoNeeds, Some(name))] else []
  {}

  lemma BehindOne(c: Cursor, raw: string)
    ensures Behind(c, [raw]) == BodyLine(c, LineOf(raw))
  {
    var m := Map([raw], LineOf);
    assert m[0] == LineOf(raw) && m[1..] == [];
    assert ReadBody(BodyLine(c, m[0]), []) == BodyLine(c, m[0]);
  }

  lemma BehindTwo(c: Cursor, first: string, second: string)
    ensures Behind(c, [first, second]) == BodyLine(BodyLine(c, LineOf(first)), LineOf(second))
  {
    assert Map([first, second], LineOf)[1..] == Map([second], LineOf);
    BehindOne(BodyLine(c, LineOf(first)), second);
  }

  // A line of needs leaves the permission as it is.
  lemma KeepsPermission(c: Cursor, n: nat, tight: string)
    requires Tight(tight) && tight[0] != 'p'
    requires tight == "needs:" || (n == 4 && KeyLine(tight)) || c.inNeeds
    ensures BodyLine(c, LineOf(Spaces(n) + tight)).job.permissions == c.job.permissions
  {
    IndentedLine(n, tight);
  }

  lemma NeedsKeeps(c: Cursor, rest: string)
    requires Tight(rest)
    ensures BodyLine(c, LineOf(NeedsText(4, rest))).job.permissions == c.job.permissions
  {
    var tight := "needs: " + rest;
    assert tight[|tight| - 1] == rest[|rest| - 1];
    NeedsKey(rest);
    KeepsPermission(c, 4, tight);
  }

  lemma NeedsKey(rest: string)
    ensures KeyLine("needs: " + rest)
  {
    var t := "needs: " + rest;
    KeyRunOf("needs", ": " + rest);
    assert t == "needs" + (": " + rest);
  }

  lemma MissedNeeds(c: Cursor, name: string, rest: string)
    requires Needless(c) && Tight(rest) && !AddsNeed(NeedsText(4, rest), c.inNeeds)
    ensures Needless(Behind(c, [NeedsText(4, rest)]))
    ensures Report(c, name, [NeedsText(4, rest)]) == [Violation(PublishNoNeeds, Some(name))]
  {
    var raw := NeedsText(4, rest);
    BehindOne(c, raw);
    NeedsKeeps(c, rest);
    LineNeeds(c, raw);
    NeedlessReport(Behind(c, [raw]), name);
  }

  // needs: [b]
  lemma ShortListMissed(c: Cursor, name: string)
    requires Needless(c)
    ensures Report(c, name, [NeedsText(4, "[b]")]) == [Violation(PublishNoNeeds, Some(name))]
  {
    assert "[b]" == "[" + "b" + "]";
    ListAdds(4, "b", c.inNeeds);
    MissedNeeds(c, name, "[b]");
  }

  // needs: b
  lemma ShortNameMissed(c: Cursor, name: string)
    requires Needless(c)
    ensures Report(c, name, [NeedsText(4, "b")]) == [Violation(PublishNoNeeds, Some(name))]
  {
    NameAdds(4, "b", c.inNeeds);
    MissedNeeds(c, name, "b");
  }

  // needs: "build"
  lemma QuotedNameMissed(c: Cursor, name: string)
    requires Needless(c)
    ensures Report(c, name, [NeedsText(4, "\"build\"")]) == [Violation(PublishNoNeeds, Some(name))]
  {
    QuotedAdds(4, "\"build\"", c.inNeeds);
    MissedNeeds(c, name, "\"build\"");
  }

  // A second line behind one that opens needs.
  lemma MissedBehind(c: Cursor, name: string, first: string, n: nat, tight: string)
    requires Needless(c) && Needless(BodyLine(c, LineOf(first))) && LeavesNeeds(first, c.inNeeds)
    requires Tight(tight) && tight[0] != 'p' && !AddsNeed(Spaces(n) + tight, true)
    ensures Report(c, name, [first, Spaces(n) + tight]) == [Violation(PublishNoNeeds, Some(name))]
  {
    var d := BodyLine(c, LineOf(first));
    LineNeeds(c, first);
    KeepsPermission(d, n, tight);
    LineNeeds(d, Spaces(n) + tight);
    BehindTwo(c, first, Spaces(n) + tight);
    NeedlessReport(Behind(c, [first, Spaces(n) + tight]), name);
  }

  // needs: [ with build] on the next line
  lemma BrokenListMissed(c: Cursor, name: string)
    requires Needless(c)
    ensures Report(c, name, [NeedsText(4, "["), Spaces(6) + "build]"]) == [Violation(PublishNoNeeds, Some(name))]
  {
    var first := NeedsText(4, "[");
    assert "[" == "[" + "";
    OpenListAdds(4, "", c.inNeeds);
    MissedNeeds(c, name, "[");
    BehindOne(c, first);
    NeedsRest(4, "[");
    OtherAdds(6, "build]", true);
    MissedBehind(c, name, first, 6, "build]");
  }

  // needs: with - "build" on the next line
  lemma QuotedItemMissed(c: Cursor, name: string)
    requires Needless(c)
    ensures Report(c, name, [Spaces(4) + "needs:", Spaces(6) + ("- " + "\"build\"")])
            == [Violation(PublishNoNeeds, Some(name))]
  {
    var first := Spaces(4) + "needs:";
    NeedsAlone(c);
    ItemAdds(6, "\"build\"", true);
    MissedBehind(c, name, first, 6, "- " + "\"build\"");
  }

  lemma NeedsAlone(c: Cursor)
    ensures var first := Spaces(4) + "needs:"; BodyLine(c, LineOf(first)) == Cursor(c.job, false, true)
    ensures LeavesNeeds(Spaces(4) + "needs:", c.inNeeds)
  {
    IndentedLine(4, "needs:");
  }

  // The same need as an unquoted item is found, and the job is not reported.
  lemma ItemNeedFound(c: Cursor, name: string)
    requires Needless(c)
    ensures Report(c, name, [Spaces(4) + "needs:", Spaces(6) + ("- " + "b")]) == []
  {
    var first, second := Spaces(4) + "needs:", Spaces(6) + ("- " + "b");
    NeedsAlone(c);
    ItemAdds(6, "b", true);
    var d := BodyLine(c, LineOf(first));
    KeepsPermission(d, 6, "- " + "b");
    LineNeeds(d, second);
    BehindTwo(c, first, second);
    NeedlessReport(Behind(c, [first, second]), name);
  }

  // Six spellings of a need, behind any job that may write and has none yet: five are missed.
  lemma MissedSpellings(c: Cursor, name: string)
    requires Needless(c)
    ensures Report(c, name, [NeedsText(4, "[b]")]) == [Violation(PublishNoNeeds, Some(name))]
    ensures Report(c, name, [NeedsText(4, "b")]) == [Violation(PublishNoNeeds, Some(name))]
    ensures Report(c, name, [NeedsText(4, "\"build\"")]) == [Violation(PublishNoNeeds, Some(name))]
    ensures Report(c, name, [NeedsText(4, "["), Spaces(6) + "build]"]) == [Violation(PublishNoNeeds, Some(name))]
    ensures Report(c, name, [Spaces(4) + "needs:", Spaces(6) + ("- " + "\"build\"")])
            == [Violation(PublishNoNeeds, Some(name))]
    ensures Report(c, name, [Spaces(4) + "needs:", Spaces(6) + ("- " + "b")]) == []
  {
    ShortListMissed(c, name);
    ShortNameMissed(c, name);
    QuotedNameMissed(c, name);
    BrokenListMissed(c, name);
    QuotedItemMissed(c, name);
    ItemNeedFound(c, name);
  }
}
