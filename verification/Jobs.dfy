/**
  run_job: the loop that parses a job file and executes its commands.  Printing a
  list of commands and running the file executes exactly that list.
 */
module Jobs {
  import opened CStrings
  import opened LinkedList
  import opened Table
  import opened HashTables
  import opened Operations
  import opened Rendering
  import opened Parser
  import opened StreamParser
  import opened Grammar
  import opened Resync
  import Decimal

  /** The commands of an input, in order, malformed ones included. */
  function Jobs(s: string): seq<Job>
    decreases |s|
  {
    NextJobEndsLine(s);
    var n := NextJob(s);
    if n.job == JobEnd then [] else [n.job] + Jobs(n.rest)
  }

  // ---- printing commands

  predicate Clean(s: string) { Plain(s) && NUL !in s }

  predicate JobOk(j: Job) {
    match j
    case JobWrite(ps) => 0 < |ps| < MAX_WRITE_SIZE && forall i :: 0 <= i < |ps| ==> Clean(ps[i].key) && Clean(ps[i].value)
    case JobRead(ks) => 0 < |ks| < MAX_WRITE_SIZE && forall i :: 0 <= i < |ks| ==> Clean(ks[i])
    case JobDelete(ks) => 0 < |ks| < MAX_WRITE_SIZE && forall i :: 0 <= i < |ks| ==> Clean(ks[i])
    case JobWait(delay) => delay <= UINT_MAX
    case JobInvalid => false
    case JobEnd => false
    case _ => true
  }

  function JobText(j: Job): string
    requires JobOk(j)
  {
    match j
    case JobWrite(ps) => "WRITE " + (WriteArgument(ps) + "\n")
    case JobRead(ks) => "READ " + (KeysArgument(ks) + "\n")
    case JobDelete(ks) => "DELETE " + (KeysArgument(ks) + "\n")
    case JobShow => "SHOW\n"
    case JobWait(delay) => "WAIT " + (Decimal.Text(delay) + "\n")
    case JobBackup => "BACKUP\n"
    case JobHelp => "HELP\n"
    case JobEmpty => "\n"
  }

  lemma CopiesOfClean(ps: seq<Pair>, ks: seq<string>)
    ensures (forall i :: 0 <= i < |ps| ==> NUL !in ps[i].key && NUL !in ps[i].value) ==> CopyPairs(ps) == ps
    ensures (forall i :: 0 <= i < |ks| ==> NUL !in ks[i]) ==> CopyKeys(ks) == ks
  {
    forall i | 0 <= i < |ps| && NUL !in ps[i].key && NUL !in ps[i].value ensures CopyPairs(ps)[i] == ps[i] {
      CStrOfNulFree(ps[i].key, "");
      CStrOfNulFree(ps[i].value, "");
    }
    forall i | 0 <= i < |ks| && NUL !in ks[i] ensures CopyKeys(ks)[i] == ks[i] {
      CStrOfNulFree(ks[i], "");
    }
  }

  lemma KeywordRead(word: string, c: Command, tail: string)
    ensures Keyword(word + tail, word, c) == Next(c, tail)
  {
    assert (word + tail)[..|word|] == word && (word + tail)[|word|..] == tail;
  }

  lemma WriteJob(tail: string, ps: seq<Pair>, rest: string)
    requires ParseWrite(tail) == Parsed(ps, rest) && ps != []
    requires forall i :: 0 <= i < |ps| ==> NUL !in ps[i].key && NUL !in ps[i].value
    ensures NextJob("WRITE " + tail) == JobAndRest(JobWrite(ps), rest)
  {
    var s := "WRITE " + tail;
    assert s[0] == 'W' && s[1] == 'R' && Take(s, 5)[1] == 'R';
    KeywordRead("WRITE ", CmdWrite, tail);
    CopiesOfClean(ps, []);
  }

  lemma WriteJobRead(ps: seq<Pair>, rest: string)
    requires JobOk(JobWrite(ps))
    ensures NextJob(JobText(JobWrite(ps)) + rest) == JobAndRest(JobWrite(ps), rest)
  {
    var tail := WriteArgument(ps) + (['\n'] + rest);
    assert JobText(JobWrite(ps)) + rest == "WRITE " + tail;
    WriteRead(ps, '\n', rest);
    WriteJob(tail, ps, rest);
  }

  lemma ReadJobRead(ks: seq<string>, rest: string)
    requires JobOk(JobRead(ks))
    ensures NextJob(JobText(JobRead(ks)) + rest) == JobAndRest(JobRead(ks), rest)
  {
    var tail := KeysArgument(ks) + (['\n'] + rest);
    KeysArgumentRead(ks, '\n', rest);
    CopiesOfClean([], ks);
    assert JobText(JobRead(ks)) + rest == "READ " + tail;
    KeywordRead("READ ", CmdRead, tail);
  }

  lemma DeleteJobRead(ks: seq<string>, rest: string)
    requires JobOk(JobDelete(ks))
    ensures NextJob(JobText(JobDelete(ks)) + rest) == JobAndRest(JobDelete(ks), rest)
  {
    var tail := KeysArgument(ks) + (['\n'] + rest);
    KeysArgumentRead(ks, '\n', rest);
    CopiesOfClean([], ks);
    assert JobText(JobDelete(ks)) + rest == "DELETE " + tail;
    KeywordRead("DELETE ", CmdDelete, tail);
  }

  lemma BareRead(word: string, c: Command, rest: string)
    ensures Bare(word + (['\n'] + rest), word, c) == Next(c, rest)
  {
    var s := word + (['\n'] + rest);
    assert s[..|word|] == word && s[|word|..] == ['\n'] + rest;
  }

  lemma WaitJobRead(delay: nat, rest: string)
    requires delay <= UINT_MAX
    ensures NextJob(JobText(JobWait(delay)) + rest) == JobAndRest(JobWait(delay), rest)
  {
    var tail := Decimal.Text(delay) + (['\n'] + rest);
    var s := JobText(JobWait(delay)) + rest;
    assert s == "WAIT " + tail;
    assert s[..5] == "WAIT " && s[5..] == tail;
    Decimal.ReadBack(delay, '\n', rest);
  }

  lemma ShowJobRead(rest: string)
    ensures NextJob(JobText(JobShow) + rest) == JobAndRest(JobShow, rest)
  {
    assert JobText(JobShow) + rest == "SHOW" + (['\n'] + rest);
    BareRead("SHOW", CmdShow, rest);
  }

  lemma BackupJobRead(rest: string)
    ensures NextJob(JobText(JobBackup) + rest) == JobAndRest(JobBackup, rest)
  {
    assert JobText(JobBackup) + rest == "BACKUP" + (['\n'] + rest);
    BareRead("BACKUP", CmdBackup, rest);
  }

  lemma HelpJobRead(rest: string)
    ensures NextJob(JobText(JobHelp) + rest) == JobAndRest(JobHelp, rest)
  {
    assert JobText(JobHelp) + rest == "HELP" + (['\n'] + rest);
    BareRead("HELP", CmdHelp, rest);
  }

  lemma EmptyJobRead(rest: string)
    ensures NextJob(JobText(JobEmpty) + rest) == JobAndRest(JobEmpty, rest)
  {}

  /** A printed command is read back as itself, and nothing after it is touched. */
  lemma JobRead1(j: Job, rest: string)
    requires JobOk(j)
    ensures NextJob(JobText(j) + rest) == JobAndRest(j, rest)
  {
    match j
    case JobWrite(ps) => WriteJobRead(ps, rest);
    case JobRead(ks) => ReadJobRead(ks, rest);
    case JobDelete(ks) => DeleteJobRead(ks, rest);
    case JobWait(delay) => WaitJobRead(delay, rest);
    case JobShow => ShowJobRead(rest);
    case JobBackup => BackupJobRead(rest);
    case JobHelp => HelpJobRead(rest);
    case JobEmpty => EmptyJobRead(rest);
  }

  function JobsText(js: seq<Job>): string
    requires forall i :: 0 <= i < |js| ==> JobOk(js[i])
  {
    if js == [] then "" else JobText(js[0]) + JobsText(js[1..])
  }

  lemma JobsCons(j: Job, rest: string)
    requires JobOk(j)
    ensures Jobs(JobText(j) + rest) == [j] + Jobs(rest)
  {
    JobRead1(j, rest);
  }

  /** A printed job file holds exactly the commands that were printed. */
  lemma {:induction false} JobFileRoundTrip(js: seq<Job>)
    requires forall i :: 0 <= i < |js| ==> JobOk(js[i])
    ensures Jobs(JobsText(js)) == js
  {
    if js == [] {
      assert JobsText(js) == "";
      assert NextJob("").job == JobEnd;
    } else {
      var rest := JobsText(js[1..]);
      assert JobsText(js) == JobText(js[0]) + rest;
      JobsCons(js[0], rest);
      JobFileRoundTrip(js[1..]);
    }
  }

  // ---- what is ever stored

  ghost predicate CleanChain(chain: Chain) {
    forall i :: 0 <= i < |chain| ==> Clean(chain[i].key) && Clean(chain[i].value)
  }

  /** Every stored string could be parsed again. */
  ghost predicate CleanTable(t: Buckets) {
    forall i {:trigger CleanChain(t[i])} :: 0 <= i < |t| ==> CleanChain(t[i])
  }

  lemma CleanPut(t: Buckets, key: string, value: string)
    requires |t| == TABLE_SIZE && Hashable(key) && CleanTable(t) && Clean(key) && Clean(value)
    ensures CleanTable(Put(t, key, value))
  {
    assert CleanChain(t[Hash(key)]);
    var t' := Put(t, key, value);
    forall i {:trigger CleanChain(t'[i])} | 0 <= i < |t'| ensures CleanChain(t'[i]) {
      assert i != Hash(key) ==> CleanChain(t[i]);
    }
  }

  lemma CleanRemove(t: Buckets, key: string)
    requires |t| == TABLE_SIZE && Hashable(key) && CleanTable(t)
    ensures CleanTable(Remove(t, key))
  {
    assert CleanChain(t[Hash(key)]);
    var t' := Remove(t, key);
    forall i {:trigger CleanChain(t'[i])} | 0 <= i < |t'| ensures CleanChain(t'[i]) {
      assert i != Hash(key) ==> CleanChain(t[i]);
    }
  }

  lemma {:induction false} CleanPutAll(t: Buckets, ps: seq<Pair>, n: nat)
    requires |t| == TABLE_SIZE && CleanTable(t) && n <= |ps| && PairsHashable(ps)
    requires forall i :: 0 <= i < |ps| ==> Clean(ps[i].key) && Clean(ps[i].value)
    ensures CleanTable(PutAll(t, ps, n))
  {
    if n > 0 {
      CleanPutAll(t, ps, n - 1);
      CleanPut(PutAll(t, ps, n - 1), ps[n - 1].key, ps[n - 1].value);
    }
  }

  lemma CleanRemoveNext(t: Buckets, ks: seq<string>, n: nat)
    requires |t| == TABLE_SIZE && 0 < n <= |ks| && AllHashable(ks) && CleanTable(RemoveAll(t, ks, n - 1))
    ensures CleanTable(RemoveAll(t, ks, n))
  {
    CleanRemove(RemoveAll(t, ks, n - 1), ks[n - 1]);
  }

  lemma {:induction false} CleanRemoveAll(t: Buckets, ks: seq<string>, n: nat)
    requires |t| == TABLE_SIZE && CleanTable(t) && n <= |ks| && AllHashable(ks)
    ensures CleanTable(RemoveAll(t, ks, n))
  {
    if n > 0 {
      CleanRemoveAll(t, ks, n - 1);
      CleanRemoveNext(t, ks, n);
    }
  }

  /** Whatever WRITE stores could be parsed again: strcpy keeps a plain string plain. */
  lemma ParsedPairsAreClean(s: string)
    requires NextJob(s).job.JobWrite?
    ensures var ps := NextJob(s).job.pairs; 0 < |ps| < MAX_WRITE_SIZE && forall i :: 0 <= i < |ps| ==> Clean(ps[i].key) && Clean(ps[i].value)
  {
    var r := ParseWrite(GetNext(s).rest);
    ItemsArePlain(GetNext(s).rest);
    forall i | 0 <= i < |r.items| ensures Clean(CStr(r.items[i].key)) && Clean(CStr(r.items[i].value)) {
      assert PlainPair(r.items[i]);
    }
  }

  // ---- executing commands

  predicate JobHashable(j: Job) {
    match j
    case JobWrite(ps) => PairsHashable(ps)
    case JobRead(ks) => AllHashable(ks)
    case JobDelete(ks) => AllHashable(ks)
    case _ => true
  }

  function TableAfter(t: Buckets, j: Job): (r: Buckets)
    requires |t| == TABLE_SIZE && JobHashable(j)
    ensures |r| == TABLE_SIZE
  {
    match j
    case JobWrite(ps) => PutAll(t, ps, |ps|)
    case JobDelete(ks) => RemoveAll(t, ks, |ks|)
    case _ => t
  }

  /** What the command appends to the job's output file. */
  function Printed(t: Buckets, j: Job): string
    requires |t| == TABLE_SIZE && JobHashable(j)
  {
    match j
    case JobRead(ks) => ReadText(t, ks)
    case JobDelete(ks) => DeleteReport(Failed(t, ks, |ks|))
    case JobShow => ShowText(t)
    case _ => ""
  }

  function Notified(t: Buckets, j: Job): seq<Message>
    requires |t| == TABLE_SIZE && JobHashable(j)
  {
    match j
    case JobWrite(ps) => PutAllMessages(t, ps, |ps|)
    case JobDelete(ks) => RemoveAllMessages(t, ks, |ks|)
    case _ => []
  }

  function BackedUp(t: Buckets, j: Job): seq<string> {
    if j == JobBackup then [ShowText(t)] else []
  }

  /** Everything a list of commands leaves behind: the table, the output file, the notifications and the backups. */
  datatype Outcome = Outcome(t: Buckets, out: string, sent: seq<Message>, backups: seq<string>)

  predicate AllJobsHashable(js: seq<Job>) {
    forall i :: 0 <= i < |js| ==> JobHashable(js[i])
  }

  function Execute(t: Buckets, js: seq<Job>): (o: Outcome)
    requires |t| == TABLE_SIZE && AllJobsHashable(js)
    ensures |o.t| == TABLE_SIZE
  {
    if js == [] then Outcome(t, "", [], [])
    else
      var o, j := Execute(t, js[..|js| - 1]), js[|js| - 1];
      Outcome(TableAfter(o.t, j), o.out + Printed(o.t, j), o.sent + Notified(o.t, j), o.backups + BackedUp(o.t, j))
  }

  lemma ExecuteSnoc(t: Buckets, js: seq<Job>, j: Job)
    requires |t| == TABLE_SIZE && AllJobsHashable(js) && JobHashable(j)
    ensures var o := Execute(t, js);
            Execute(t, js + [j]) ==
            Outcome(TableAfter(o.t, j), o.out + Printed(o.t, j), o.sent + Notified(o.t, j), o.backups + BackedUp(o.t, j))
  {
    assert (js + [j])[..|js|] == js;
  }

  /** The keys of a parsed command, as read from the arrays. */
  method PairsOf(keys: array<string>, values: array<string>, n: nat, ghost items: seq<Pair>) returns (ps: seq<Pair>)
    requires n == |items| && Copied(keys, values, items)
    ensures ps == CopyPairs(items)
  {
    ps := seq(n, i requires 0 <= i < n && n <= keys.Length && n <= values.Length reads keys, values => Pair(keys[i], values[i]));
  }

  method KeysOf(keys: array<string>, n: nat, ghost items: seq<string>) returns (ks: seq<string>)
    requires n == |items| && CopiedKeys(keys, items)
    ensures ks == CopyKeys(items)
  {
    ks := keys[..n];
  }

  /** The parsing half of an iteration of run_job. */
  method NextJobInto(fd: Stream) returns (job: Job)
    requires fd.Valid()
    modifies fd
    ensures fd.Valid() && JobAndRest(job, fd.Rest()) == NextJob(old(fd.Rest()))
  {
    var keys, values := new string[MAX_WRITE_SIZE](_ => ""), new string[MAX_WRITE_SIZE](_ => "");
    var command := GetNextInto(fd);
    ghost var s := fd.Rest();
    match command {
      case CmdWrite =>
        var numPairs := ParseWriteInto(fd, keys, values);
        if numPairs == 0 {
          return JobInvalid;
        }
        var ps := PairsOf(keys, values, numPairs, ParseWrite(s).items);
        job := JobWrite(ps);
      case CmdRead =>
        var numKeys := ParseReadDeleteInto(fd, keys);
        if numKeys == 0 {
          return JobInvalid;
        }
        var ks := KeysOf(keys, numKeys, ParseReadDelete(s).items);
        job := JobRead(ks);
      case CmdDelete =>
        var numKeys := ParseReadDeleteInto(fd, keys);
        if numKeys == 0 {
          return JobInvalid;
        }
        var ks := KeysOf(keys, numKeys, ParseReadDelete(s).items);
        job := JobDelete(ks);
      case CmdShow => job := JobShow;
      case CmdWait =>
        var code, delay := ParseWaitInto(fd);
        job := if code == -1 then JobInvalid else JobWait(delay);
      case CmdBackup => job := JobBackup;
      case CmdHelp => job := JobHelp;
      case CmdEmpty => job := JobEmpty;
      case CmdInvalid => job := JobInvalid;
      case EndOfCommands => job := JobEnd;
    }
  }

  /** The executing half. */
  method ExecuteJob(ht: HashTable, job: Job) returns (out: string, sent: seq<Message>, backups: seq<string>)
    requires ht.Valid() && JobHashable(job) && CleanTable(ht.model)
    modifies ht.Repr
    ensures ht.Valid() && fresh(ht.Repr - old(ht.Repr))
    ensures ht.model == TableAfter(old(ht.model), job)
    ensures out == Printed(old(ht.model), job) && sent == Notified(old(ht.model), job) && backups == BackedUp(old(ht.model), job)
  {
    out, sent, backups := "", [], [];
    match job {
      case JobWrite(ps) => sent := KvsWrite(ht, ps);
      case JobRead(ks) => out := KvsRead(ht, ks);
      case JobDelete(ks) =>
        FailedAreMissing(ht.model, ks, |ks|);
        out, sent := KvsDelete(ht, ks);
      case JobShow => out := KvsShow(ht);
      case JobBackup =>
        assert forall i :: 0 <= i < TABLE_SIZE ==> CleanChain(ht.model[i]);
        var backup := KvsBackup(ht);
        backups := [backup];
      case _ =>
    }
  }

  lemma JobKeepsClean(t: Buckets, s: string)
    requires |t| == TABLE_SIZE && CleanTable(t) && JobHashable(NextJob(s).job)
    ensures CleanTable(TableAfter(t, NextJob(s).job))
  {
    match NextJob(s).job
    case JobWrite(ps) =>
      ParsedPairsAreClean(s);
      CleanPutAll(t, ps, |ps|);
    case JobDelete(ks) => CleanRemoveAll(t, ks, |ks|);
    case _ =>
  }

  /** One more command taken from the input. */
  lemma JobsStep(all: seq<Job>, executed: seq<Job>, s: string)
    requires all == executed + Jobs(s) && AllJobsHashable(all)
    ensures AllJobsHashable(executed)
    ensures var n := NextJob(s);
            if n.job == JobEnd then s == "" && executed == all
            else JobHashable(n.job) && all == (executed + [n.job]) + Jobs(n.rest) && |n.rest| < |s| && s != ""
  {
    NextJobEndsLine(s);
    forall i | 0 <= i < |executed| ensures JobHashable(executed[i]) {
      assert all[i] == executed[i];
    }
    var n := NextJob(s);
    if n.job != JobEnd {
      assert all[|executed|] == n.job;
      Assoc(executed, [n.job], Jobs(n.rest));
    }
  }

  /** One iteration of run_job. */
  method RunOne(fd: Stream, ht: HashTable) returns (job: Job, out: string, sent: seq<Message>, backups: seq<string>)
    requires fd.Valid() && ht.Valid() && fd !in ht.Repr
    requires CleanTable(ht.model) && JobHashable(NextJob(fd.Rest()).job)
    modifies fd, ht.Repr
    ensures fd.Valid() && ht.Valid() && fresh(ht.Repr - old(ht.Repr)) && CleanTable(ht.model)
    ensures JobAndRest(job, fd.Rest()) == NextJob(old(fd.Rest()))
    ensures ht.model == TableAfter(old(ht.model), job) && out == Printed(old(ht.model), job)
    ensures sent == Notified(old(ht.model), job) && backups == BackedUp(old(ht.model), job)
  {
    JobKeepsClean(ht.model, fd.Rest());
    job := NextJobInto(fd);
    out, sent, backups := ExecuteJob(ht, job);
  }

  /** Executes one more command, or finds that all have been. */
  method OneMore(fd: Stream, ht: HashTable, ghost now: Outcome, ghost t: Buckets, ghost all: seq<Job>, ghost executed: seq<Job>)
    returns (job: Job, o: string, m: seq<Message>, b: seq<string>)
    requires fd.Valid() && ht.Valid() && fd !in ht.Repr && CleanTable(ht.model)
    requires |t| == TABLE_SIZE && AllJobsHashable(all) && all == executed + Jobs(fd.Rest())
    requires AllJobsHashable(executed) && now == Execute(t, executed) && now.t == ht.model
    modifies fd, ht.Repr
    ensures fd.Valid() && ht.Valid() && fresh(ht.Repr - old(ht.Repr)) && CleanTable(ht.model)
    ensures job == JobEnd ==> executed == all && now.t == ht.model && fd.Rest() == ""
    ensures job != JobEnd ==>
              && all == (executed + [job]) + Jobs(fd.Rest()) && AllJobsHashable(executed + [job])
              && Outcome(ht.model, now.out + o, now.sent + m, now.backups + b) == Execute(t, executed + [job])
              && |fd.Rest()| < |old(fd.Rest())|
  {
    JobsStep(all, executed, fd.Rest());
    job, o, m, b := RunOne(fd, ht);
    if job != JobEnd {
      ExecuteSnoc(t, executed, job);
    }
  }

  /**
    run_job: it ends on every input and has then executed exactly the commands of the
    input, in order; what it stored could be parsed again.
   */
  method RunJob(fd: Stream, ht: HashTable) returns (out: string, sent: seq<Message>, backups: seq<string>)
    requires fd.Valid() && ht.Valid() && fd !in ht.Repr
    requires CleanTable(ht.model) && AllJobsHashable(Jobs(fd.Rest()))
    modifies fd, ht.Repr
    ensures ht.Valid() && fresh(ht.Repr - old(ht.Repr))
    ensures Outcome(ht.model, out, sent, backups) == Execute(old(ht.model), Jobs(old(fd.Rest())))
    ensures CleanTable(ht.model) && fd.Valid() && fd.Rest() == ""
  {
    ghost var t, all := ht.model, Jobs(fd.Rest());
    ghost var executed: seq<Job> := [];
    out, sent, backups := "", [], [];
    while true
      invariant fd.Valid() && ht.Valid() && fd !in ht.Repr && fresh(ht.Repr - old(ht.Repr)) && CleanTable(ht.model)
      invariant all == executed + Jobs(fd.Rest()) && AllJobsHashable(executed)
      invariant Outcome(ht.model, out, sent, backups) == Execute(t, executed)
      decreases |fd.Rest()|
    {
      var job, o, m, b := OneMore(fd, ht, Outcome(ht.model, out, sent, backups), t, all, executed);
      if job == JobEnd {
        return;
      }
      executed := executed + [job];
      out, sent, backups := out + o, sent + m, backups + b;
    }
  }
}
