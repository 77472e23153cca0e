/**
  What run_job does, told by others: its commands are the commands of Batches.dfy, one
  after the other and each whole, and what it sends is the log of its single events.
 */
module JobMeaning {
  import opened CStrings
  import opened Table
  import opened Operations
  import opened Parser
  import opened Jobs
  import Batches
  import Notifications

  /** The batch command of a job; WAIT, HELP, empty lines and malformed commands are none. */
  function AsCommand(j: Job): Option<Batches.Command> {
    match j
    case JobWrite(pairs) => Some(Batches.Write(pairs))
    case JobRead(keys) => Some(Batches.Read(keys))
    case JobDelete(keys) => Some(Batches.Delete(keys))
    case JobShow => Some(Batches.Show)
    case JobBackup => Some(Batches.Backup)
    case _ => None
  }

  /** A table, a job's output file and its backup files. */
  datatype Told = Told(t: Buckets, out: string, backups: seq<string>)

  /** What a whole command adds: BACKUP's answer is a file of its own. */
  function Tell(w: Told, c: Batches.Command): (next: Told)
    requires |w.t| == TABLE_SIZE && Batches.Hashables(c)
    ensures |next.t| == TABLE_SIZE
  {
    var answer := Batches.Answer(w.t, c);
    Told(Batches.After(w.t, c, Batches.Size(w.t, c)),
         if c.Backup? then w.out else w.out + answer,
         if c.Backup? then w.backups + [answer] else w.backups)
  }

  function OutcomeTold(o: Outcome): Told { Told(o.t, o.out, o.backups) }

  /** What one job does to an outcome. */
  function Then(o: Outcome, j: Job): Outcome
    requires |o.t| == TABLE_SIZE && JobHashable(j)
  {
    Outcome(TableAfter(o.t, j), o.out + Printed(o.t, j), o.sent + Notified(o.t, j), o.backups + BackedUp(o.t, j))
  }

  lemma JobTells(o: Outcome, j: Job)
    requires |o.t| == TABLE_SIZE && JobHashable(j)
    ensures AsCommand(j) == None ==> Then(o, j) == o
    ensures AsCommand(j).Some? ==>
              Batches.Hashables(AsCommand(j).value) && OutcomeTold(Then(o, j)) == Tell(OutcomeTold(o), AsCommand(j).value)
  {}

  /** One more job changes what a file leaves behind as its batch command says, and not at all if it is none. */
  lemma OneMoreJob(t: Buckets, js: seq<Job>, j: Job)
    requires |t| == TABLE_SIZE && AllJobsHashable(js) && JobHashable(j)
    ensures AsCommand(j) == None ==> Execute(t, js + [j]) == Execute(t, js)
    ensures AsCommand(j).Some? ==>
              && Batches.Hashables(AsCommand(j).value)
              && OutcomeTold(Execute(t, js + [j])) == Tell(OutcomeTold(Execute(t, js)), AsCommand(j).value)
  {
    ExecuteSnoc(t, js, j);
    JobTells(Execute(t, js), j);
  }

  /** The commands of a file, in order. */
  function Commands(js: seq<Job>): seq<Batches.Command> {
    if js == [] then []
    else
      var c := AsCommand(js[|js| - 1]);
      Commands(js[..|js| - 1]) + if c.Some? then [c.value] else []
  }

  predicate AllHashables(cs: seq<Batches.Command>) {
    forall c :: c in cs ==> Batches.Hashables(c)
  }

  lemma {:induction false} CommandsAreHashable(js: seq<Job>)
    requires AllJobsHashable(js)
    ensures AllHashables(Commands(js))
  {
    if js != [] {
      CommandsAreHashable(js[..|js| - 1]);
      assert JobHashable(js[|js| - 1]);
    }
  }

  /** Whole commands in order, each on the table the ones before it left. */
  function TellAll(t: Buckets, cs: seq<Batches.Command>): (w: Told)
    requires |t| == TABLE_SIZE && AllHashables(cs)
    ensures |w.t| == TABLE_SIZE
  {
    if cs == [] then Told(t, "", [])
    else
      assert cs[|cs| - 1] in cs;
      Tell(TellAll(t, cs[..|cs| - 1]), cs[|cs| - 1])
  }

  lemma TellSnoc(t: Buckets, cs: seq<Batches.Command>, c: Batches.Command)
    requires |t| == TABLE_SIZE && AllHashables(cs) && Batches.Hashables(c)
    ensures AllHashables(cs + [c]) && TellAll(t, cs + [c]) == Tell(TellAll(t, cs), c)
  {
    assert (cs + [c])[..|cs|] == cs;
  }

  lemma CommandsSnoc(js: seq<Job>, j: Job)
    ensures Commands(js + [j]) == if AsCommand(j).Some? then Commands(js) + [AsCommand(j).value] else Commands(js)
  {
    assert (js + [j])[..|js|] == js;
  }

  /** `w` is what the commands `cs` tell. */
  predicate Tells(t: Buckets, cs: seq<Batches.Command>, w: Told)
    requires |t| == TABLE_SIZE
  {
    AllHashables(cs) && w == TellAll(t, cs)
  }

  lemma TellsNext(t: Buckets, cs: seq<Batches.Command>, w: Told, c: Batches.Command, next: seq<Batches.Command>, w': Told)
    requires |t| == TABLE_SIZE && Tells(t, cs, w) && Batches.Hashables(c) && next == cs + [c] && w' == Tell(w, c)
    ensures Tells(t, next, w')
  {
    TellSnoc(t, cs, c);
  }

  lemma FileTellsNext(t: Buckets, js: seq<Job>, j: Job, w: Told, cs: seq<Batches.Command>, w': Told, next: seq<Batches.Command>)
    requires |t| == TABLE_SIZE && AllJobsHashable(js) && JobHashable(j)
    requires cs == Commands(js) && w == OutcomeTold(Execute(t, js)) && Tells(t, cs, w)
    requires next == Commands(js + [j]) && w' == OutcomeTold(Execute(t, js + [j]))
    ensures Tells(t, next, w')
  {
    OneMoreJob(t, js, j);
    CommandsSnoc(js, j);
    if AsCommand(j).Some? {
      TellsNext(t, cs, w, AsCommand(j).value, next, w');
    }
  }

  lemma PrefixHashable(js: seq<Job>, n: nat)
    requires AllJobsHashable(js) && n < |js|
    ensures AllJobsHashable(js[..n]) && JobHashable(js[n]) && js[..n + 1] == js[..n] + [js[n]]
  {}

  lemma FileTells(t: Buckets, js: seq<Job>)
    requires |t| == TABLE_SIZE && AllJobsHashable(js)
    ensures AllHashables(Commands(js)) && OutcomeTold(Execute(t, js)) == TellAll(t, Commands(js))
  {
    var cs, w := Commands([]), OutcomeTold(Execute(t, []));
    for n := 0 to |js|
      invariant AllJobsHashable(js[..n])
      invariant cs == Commands(js[..n]) && w == OutcomeTold(Execute(t, js[..n])) && Tells(t, cs, w)
    {
      var front := js[..n];
      PrefixHashable(js, n);
      ExecuteSnoc(t, front, js[n]);
      var next, w' := Commands(front + [js[n]]), OutcomeTold(Execute(t, front + [js[n]]));
      FileTellsNext(t, front, js[n], w, cs, w', next);
      cs, w := next, w';
    }
    assert js[..|js|] == js;
  }

  lemma {:induction false} TellAllIsReplay(t: Buckets, cs: seq<Batches.Command>)
    requires |t| == TABLE_SIZE && AllHashables(cs)
    ensures TellAll(t, cs).t == Batches.Replay(t, cs)
  {
    if cs != [] {
      assert AllHashables(cs[..|cs| - 1]) && cs[|cs| - 1] in cs;
      TellAllIsReplay(t, cs[..|cs| - 1]);
    }
  }

  /** A job file is its commands, whole and in order: the table they leave, their answers in the output, a file for each backup. */
  lemma FileIsItsCommands(t: Buckets, js: seq<Job>)
    requires |t| == TABLE_SIZE && AllJobsHashable(js)
    ensures AllHashables(Commands(js))
    ensures OutcomeTold(Execute(t, js)) == TellAll(t, Commands(js))
    ensures Execute(t, js).t == Batches.Replay(t, Commands(js))
  {
    FileTells(t, js);
    TellAllIsReplay(t, Commands(js));
  }

  // ---- the notifications

  function JobEvents(j: Job): seq<Notifications.Event> {
    match j
    case JobWrite(pairs) => Notifications.Writes(pairs, |pairs|)
    case JobDelete(keys) => Notifications.Deletes(keys, |keys|)
    case _ => []
  }

  function FileEvents(js: seq<Job>): seq<Notifications.Event> {
    if js == [] then [] else FileEvents(js[..|js| - 1]) + JobEvents(js[|js| - 1])
  }

  lemma JobIsEvents(t: Buckets, j: Job)
    requires WellFormed(t) && JobHashable(j)
    ensures WellFormed(TableAfter(t, j))
    ensures Contents(TableAfter(t, j)) == Notifications.StoreFrom(Contents(t), JobEvents(j))
    ensures Notified(t, j) == Notifications.LogFrom(Contents(t), JobEvents(j))
  {
    match j
    case JobWrite(pairs) =>
      PutAllContents(t, pairs, |pairs|);
      Notifications.WriteEvents(Contents(t), pairs, |pairs|);
    case JobDelete(keys) =>
      RemoveAllMeaning(t, keys, |keys|);
      Notifications.DeleteEvents(Contents(t), keys, |keys|);
    case _ =>
  }

  /** A job file leaves the store of its single writes and deletes and has sent their log. */
  lemma {:induction false} FileIsItsEvents(t: Buckets, js: seq<Job>)
    requires WellFormed(t) && AllJobsHashable(js)
    ensures WellFormed(Execute(t, js).t)
    ensures Contents(Execute(t, js).t) == Notifications.StoreFrom(Contents(t), FileEvents(js))
    ensures Execute(t, js).sent == Notifications.LogFrom(Contents(t), FileEvents(js))
  {
    if js != [] {
      var before, j := js[..|js| - 1], js[|js| - 1];
      FileIsItsEvents(t, before);
      JobIsEvents(Execute(t, before).t, j);
      Notifications.StoreAppend(Contents(t), FileEvents(before), JobEvents(j));
      Notifications.LogAppend(Contents(t), FileEvents(before), JobEvents(j));
    }
  }
}
