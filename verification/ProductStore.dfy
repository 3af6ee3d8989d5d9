/** The journal store: a replacement is written beside the journal, forced to the disk, and put in
    its place by one rename. Whenever the machine stops, the journal is the old one or the new one. */
module ProductStore {
  import opened Bytes

  const LIMIT := 262144

  // ---------- A file system that may stop at any moment ----------

  datatype Name = State | Candidate | Migration

  /** What was written, and whether all of it has been forced to the disk. */
  datatype File = File(bytes: seq<byte>, synced: bool, isPrivate: bool)

  /** A moment: the files, the names as running programs see them, and for every name what it may
      stand for after a crash. */
  datatype Moment = Moment(files: seq<File>, live: map<Name, Option<nat>>, durable: map<Name, set<Option<nat>>>)

  ghost predicate Valid(m: Moment) {
    forall n: Name :: n in m.live && n in m.durable && m.live[n] in m.durable[n] &&
                      forall x | x in m.durable[n] && x.Some? :: x.value < |m.files|
  }

  /** After a crash the name may stand for a file with these bytes; unforced bytes may be anything. */
  ghost predicate MayRead(m: Moment, n: Name, bytes: Option<seq<byte>>) {
    n in m.durable && exists x | x in m.durable[n] :: Reads(m, x, bytes)
  }

  ghost predicate Reads(m: Moment, x: Option<nat>, bytes: Option<seq<byte>>) {
    match x
    case None => bytes == None
    case Some(id) => id < |m.files| && bytes.Some? && (m.files[id].synced ==> bytes.value == m.files[id].bytes)
  }

  /** What a running program reads. */
  function Content(m: Moment, n: Name): Option<seq<byte>>
    requires n in m.live && (m.live[n].Some? ==> m.live[n].value < |m.files|)
  {
    match m.live[n]
    case None => None
    case Some(id) => Some(m.files[id].bytes)
  }

  datatype Opened = NotThere | NotOpened | Opened(id: nat)
  datatype Written = Interrupted | WriteError | Wrote(n: nat)

  /** The directory under its lock. Every operation may fail; which ones do is given beforehand. */
  class Disk {
    var m: Moment
    var faults: seq<bool>
    var sizes: seq<nat>          // how much each write takes
    ghost var log: seq<Moment>   // every moment since the transaction began
    ghost var refused: nat       // how many names could not be removed
    ghost var struck: bool       // whether anything failed so far
    ghost const given: seq<bool> // the faults as they were in the beginning

    ghost predicate Ok()
      reads this
    {
      Valid(m) && log != [] && log[|log| - 1] == m && (struck || true in faults ==> true in given)
    }

    method Fault() returns (f: bool)
      requires Ok()
      modifies this`faults, this`struck
      ensures Ok() && struck == (old(struck) || f)
      ensures if f then |faults| < |old(faults)| else |faults| <= |old(faults)|
    {
      f := false;
      if faults != [] {
        f, faults := faults[0], faults[1..];
      }
      struck := struck || f;
    }

    method Open(n: Name) returns (r: Opened)
      requires Ok()
      modifies this`faults, this`struck
      ensures Ok() && struck == (old(struck) || r.NotOpened?)
      ensures match r {
                case NotThere => m.live[n] == None
                case NotOpened => true
                case Opened(id) => m.live[n] == Some(id)
              }
    {
      var f := Fault();
      r := if f then NotOpened else if m.live[n].None? then NotThere else Opened(m.live[n].value);
    }

    /** O_CREAT | O_EXCL. */
    method Create(n: Name) returns (r: Opened)
      requires Ok()
      modifies this
      ensures Ok() && log == old(log) + (if r.Opened? then [m] else []) && refused == old(refused)
      ensures (old(struck) ==> struck) && (!r.Opened? ==> struck || m.live[n].Some?)
      ensures if r.Opened? then
                r.id == |old(m).files| && old(m).live[n] == None && m.files == old(m).files + [File([], false, true)] &&
                m.live == old(m).live[n := Some(r.id)] && m.durable == old(m).durable[n := old(m).durable[n] + {Some(r.id)}]
              else m == old(m)
    {
      var f := Fault();
      if f || m.live[n].Some? {
        return NotOpened;
      }
      var id := |m.files|;
      m := Moment(m.files + [File([], false, true)], m.live[n := Some(id)], m.durable[n := m.durable[n] + {Some(id)}]);
      log := log + [m];
      r := Opened(id);
    }

    method Write(id: nat, data: seq<byte>) returns (r: Written)
      requires Ok() && id < |m.files| && |data| > 0
      modifies this
      ensures Ok() && log == old(log) + [m] && m.live == old(m).live && m.durable == old(m).durable && refused == old(refused)
      ensures var k := if r.Wrote? then r.n else 0;
              k <= |data| && (r.Wrote? ==> 0 < k) && |m.files| == |old(m).files| &&
              m.files == old(m).files[id := File(old(m).files[id].bytes + data[..k], false, old(m).files[id].isPrivate)]
      ensures r.Interrupted? ==> |faults| < |old(faults)|
      ensures struck == (old(struck) || !r.Wrote?)
    {
      var f := Fault();
      var k := 0;
      if f {
        var g := Fault();
        r := if g then WriteError else Interrupted;
      } else {
        k := if sizes == [] || sizes[0] == 0 || sizes[0] > |data| then |data| else sizes[0];
        sizes := if sizes == [] then [] else sizes[1..];
        r := Wrote(k);
      }
      m := m.(files := m.files[id := File(m.files[id].bytes + data[..k], false, m.files[id].isPrivate)]);
      log := log + [m];
    }

    method Sync(id: nat) returns (ok: bool)
      requires Ok() && id < |m.files|
      modifies this
      ensures Ok() && log == old(log) + [m] && refused == old(refused) && struck == (old(struck) || !ok)
      ensures m == if ok then old(m).(files := old(m).files[id := old(m).files[id].(synced := true)]) else old(m)
    {
      var f := Fault();
      ok := !f;
      if ok {
        m := m.(files := m.files[id := m.files[id].(synced := true)]);
      }
      log := log + [m];
    }

    method SyncDir() returns (ok: bool)
      requires Ok()
      modifies this
      ensures Ok() && log == old(log) + [m] && refused == old(refused) && struck == (old(struck) || !ok)
      ensures m == if ok then old(m).(durable := map n: Name | n in old(m).durable :: {old(m).live[n]}) else old(m)
    {
      var f := Fault();
      ok := !f;
      if ok {
        m := m.(durable := map n: Name | n in m.durable :: {m.live[n]});
      }
      log := log + [m];
    }

    method Unlink(n: Name) returns (ok: bool)
      requires Ok()
      modifies this
      ensures Ok() && log == old(log) + [m] && refused == old(refused) + if ok then 0 else 1
      ensures (old(struck) ==> struck) && (!ok ==> struck || m.live[n].None?)
      ensures m == if ok then old(m).(live := old(m).live[n := None], durable := old(m).durable[n := old(m).durable[n] + {None}]) else old(m)
    {
      var f := Fault();
      ok := !f && m.live[n].Some?;
      if ok {
        m := m.(live := m.live[n := None], durable := m.durable[n := m.durable[n] + {None}]);
      }
      refused := refused + if ok then 0 else 1;
      log := log + [m];
    }

    /** renameat(candidate, state): one step for running programs; after a crash before the
        directory is forced to the disk it may have happened or not. */
    method RenameCandidate() returns (ok: bool)
      requires Ok() && m.live[Candidate].Some?
      modifies this
      ensures Ok() && log == old(log) + [m] && refused == old(refused) && struck == (old(struck) || !ok)
      ensures m == if ok then Renamed(old(m)) else old(m)
    {
      var f := Fault();
      ok := !f;
      if ok {
        m := Renamed(m);
      }
      log := log + [m];
    }
  }

  function Renamed(m: Moment): Moment
    requires State in m.live && Candidate in m.live && State in m.durable && Candidate in m.durable
  {
    var x := m.live[Candidate];
    m.(live := m.live[State := x][Candidate := None],
       durable := m.durable[State := m.durable[State] + {x}][Candidate := m.durable[Candidate] + {None}])
  }

  // ---------- What the journal may be ----------

  /** Files that were there keep their bytes and their mode, and what was forced to the disk stays there. */
  ghost predicate Grown(a: Moment, b: Moment) {
    |a.files| <= |b.files| &&
    forall id: nat | id < |a.files| ::
      b.files[id].bytes == a.files[id].bytes && b.files[id].isPrivate == a.files[id].isPrivate && (a.files[id].synced ==> b.files[id].synced)
  }

  /** A backup that was there is still there, and nothing else can be. */
  ghost predicate BackupKept(a: Moment, b: Moment)
    requires Valid(a) && Valid(b)
  {
    a.live[Migration].Some? ==> b.live[Migration] == a.live[Migration] && b.durable[Migration] <= a.durable[Migration]
  }

  /** The journal was not touched. */
  ghost predicate Untouched(a: Moment, b: Moment) {
    Valid(a) && Valid(b) && Grown(a, b) && BackupKept(a, b) && b.live[State] == a.live[State] && b.durable[State] <= a.durable[State]
  }

  /** The replacement is in place, or may be after a crash; it is complete, and so is the backup. */
  ghost predicate Published(a: Moment, b: Moment, id: nat, data: seq<byte>, backup: Option<seq<byte>>) {
    Valid(a) && Valid(b) && Grown(a, b) && BackupKept(a, b) && id < |b.files| && b.files[id].synced && b.files[id].bytes == data &&
    b.live[State] == Some(id) && b.durable[State] <= a.durable[State] + {Some(id)} &&
    (backup.Some? ==> BackedUp(b, backup.value))
  }

  /** The backup cannot be anything but these bytes, now or after a crash. */
  ghost predicate BackedUp(m: Moment, data: seq<byte>) {
    Valid(m) && m.live[Migration].Some? && m.durable[Migration] == {m.live[Migration]} &&
    m.files[m.live[Migration].value].synced && m.files[m.live[Migration].value].bytes == data
  }

  /** The journal was left alone at every moment so far. */
  ghost predicate Calm(a: Moment, d: Disk)
    reads d
  {
    d.Ok() && Untouched(a, d.m) && forall k | 0 <= k < |d.log| :: Untouched(a, d.log[k])
  }

  /** An untouched journal reads as it might have read before. */
  lemma UntouchedReads(a: Moment, b: Moment, bytes: Option<seq<byte>>)
    requires Untouched(a, b) && MayRead(b, State, bytes)
    ensures MayRead(a, State, bytes)
    ensures Content(b, State) == Content(a, State)
  {
    var x :| x in b.durable[State] && Reads(b, x, bytes);
    assert x in a.durable[State] && Reads(a, x, bytes);
  }

  /** A published replacement reads as it might have read before, or as the whole replacement. */
  lemma PublishedReads(a: Moment, b: Moment, id: nat, data: seq<byte>, backup: Option<seq<byte>>, bytes: Option<seq<byte>>)
    requires Published(a, b, id, data, backup) && MayRead(b, State, bytes)
    ensures MayRead(a, State, bytes) || bytes == Some(data)
    ensures Content(b, State) == Some(data)
  {
    var x :| x in b.durable[State] && Reads(b, x, bytes);
    if x != Some(id) {
      assert x in a.durable[State] && Reads(a, x, bytes);
    }
  }

  /** The backup reads as the journal did, whatever happens. */
  lemma BackupReads(m: Moment, data: seq<byte>, bytes: Option<seq<byte>>)
    requires BackedUp(m, data) && MayRead(m, Migration, bytes)
    ensures bytes == Some(data) && Content(m, Migration) == Some(data)
  {
  }

  // ---------- The transaction ----------

  datatype Reply = Refusal | Reply(replacement: Option<seq<byte>>, backup: bool)
  datatype Outcome = Committed | NothingToStore | NotStored | DurabilityUnknown

  /** write() until all of data is in the file; the file is a new one. */
  method WriteAll(d: Disk, id: nat, data: seq<byte>, ghost a: Moment) returns (ok: bool)
    requires Calm(a, d)
    requires |a.files| <= id < |d.m.files| && d.m.files[id].bytes == []
    modifies d
    ensures Calm(a, d)
    ensures d.m.live == old(d.m).live && d.m.durable == old(d.m).durable && |d.m.files| == |old(d.m).files| && d.refused == old(d.refused)
    ensures forall j | 0 <= j < |d.m.files| && j != id :: d.m.files[j] == old(d.m).files[j]
    ensures if ok then d.m.files[id].bytes == data else d.struck
    ensures old(d.struck) ==> d.struck
  {
    var used := 0;
    while used < |data|
      invariant used <= |data|
      invariant Calm(a, d)
      invariant d.m.live == old(d.m).live && d.m.durable == old(d.m).durable && |d.m.files| == |old(d.m).files| && d.refused == old(d.refused)
      invariant forall j | 0 <= j < |d.m.files| && j != id :: d.m.files[j] == old(d.m).files[j]
      invariant d.m.files[id].bytes == data[..used]
      invariant old(d.struck) ==> d.struck
      decreases |data| - used, |d.faults|
    {
      var r := d.Write(id, data[used..]);
      match r
      case Interrupted =>
        assert data[used..][..0] == [];
      case WriteError =>
        return false;
      case Wrote(n) =>
        assert data[..used] + data[used..][..n] == data[..used + n];
        used := used + n;
    }
    ok := true;
  }

  /** What stands under the name of the backup is not what it would have to be. */
  ghost predicate OtherBackup(m: Moment, data: seq<byte>)
    requires Valid(m)
  {
    m.live[Migration].Some? && var file := m.files[m.live[Migration].value]; !file.isPrivate || file.bytes != data
  }

  lemma SameBackup(a: Moment, m: Moment)
    requires Untouched(a, m) && m.live[Migration] == a.live[Migration]
    ensures forall data :: OtherBackup(m, data) <==> OtherBackup(a, data)
  {
  }

  /** migration_backup: the pre-transaction journal, forced to the disk, under its fixed name. A
      backup that is already there is only accepted, never replaced or removed. */
  method MigrationBackup(d: Disk, data: seq<byte>, ghost a: Moment) returns (ok: bool)
    requires Calm(a, d)
    modifies d
    ensures Calm(a, d) && Grown(old(d.m), d.m) && d.m.live[Candidate] == old(d.m).live[Candidate] && d.refused >= old(d.refused)
    ensures ok ==> BackedUp(d.m, data) && !OtherBackup(old(d.m), data)
    ensures !ok ==> d.struck || OtherBackup(old(d.m), data)
    ensures old(d.struck) ==> d.struck
  {
    var r := d.Open(Migration);
    match r
    case NotOpened =>
      ok := false;
    case Opened(fd) =>
      var unreadable := d.Fault();
      if !d.m.files[fd].isPrivate || unreadable || d.m.files[fd].bytes != data {
        return false;
      }
      ok := SyncBoth(d, fd, a);
    case NotThere =>
      ok := NewBackup(d, data, a);
  }

  /** A new file under a name other than the journal's. */
  method NewFile(d: Disk, n: Name, ghost a: Moment) returns (r: Opened)
    requires Calm(a, d) && n != State
    modifies d
    ensures Calm(a, d) && d.refused == old(d.refused) && |a.files| <= |old(d.m).files|
    ensures (old(d.struck) ==> d.struck) && (!r.Opened? ==> d.struck || d.m.live[n].Some?)
    ensures if r.Opened? then
              r.id == |old(d.m).files| && old(d.m).live[n] == None && d.m.files == old(d.m).files + [File([], false, true)] &&
              d.m.live == old(d.m).live[n := Some(r.id)]
            else d.m == old(d.m)
  {
    r := d.Create(n);
  }

  method SyncFile(d: Disk, fd: nat, ghost a: Moment) returns (ok: bool)
    requires Calm(a, d) && fd < |d.m.files|
    modifies d
    ensures Calm(a, d) && d.m.live == old(d.m).live && d.m.durable == old(d.m).durable && d.refused == old(d.refused)
    ensures d.struck == (old(d.struck) || !ok)
    ensures d.m.files == if ok then old(d.m).files[fd := old(d.m).files[fd].(synced := true)] else old(d.m).files
  {
    ok := d.Sync(fd);
  }

  /** fsync(fd), close(fd), fsync(dir). */
  method SyncBoth(d: Disk, fd: nat, ghost a: Moment) returns (ok: bool)
    requires Calm(a, d) && fd < |d.m.files|
    modifies d
    ensures Calm(a, d) && Grown(old(d.m), d.m) && d.m.live == old(d.m).live && |d.m.files| == |old(d.m).files| && d.refused == old(d.refused)
    ensures d.m.files[fd].bytes == old(d.m).files[fd].bytes
    ensures ok ==> d.m.files[fd].synced && forall n: Name :: d.m.durable[n] == {d.m.live[n]}
    ensures d.struck == (old(d.struck) || !ok)
  {
    ok := SyncFile(d, fd, a);
    if !ok {
      return;
    }
    var closing := d.Fault();
    if closing {
      return false;
    }
    ok := d.SyncDir();
  }

  method NewBackup(d: Disk, data: seq<byte>, ghost a: Moment) returns (ok: bool)
    requires Calm(a, d)
    modifies d
    ensures Calm(a, d) && Grown(old(d.m), d.m) && d.m.live[Candidate] == old(d.m).live[Candidate] && d.refused >= old(d.refused)
    ensures if ok then BackedUp(d.m, data) else d.struck || old(d.m).live[Migration].Some?
    ensures old(d.struck) ==> d.struck
    ensures !ok && d.m.live[Migration] != old(d.m).live[Migration] ==>
              d.m.live[Migration] == Some(|old(d.m).files|) && d.refused > old(d.refused)
  {
    var r := NewFile(d, Migration, a);
    if !r.Opened? {
      return false;
    }
    ok := WriteAll(d, r.id, data, a);
    if ok {
      ok := SyncBoth(d, r.id, a);
    }
    if !ok && d.m.live[Migration] == Some(r.id) {
      RemoveBackup(d, a);
    }
  }

  /** Only a backup of this call is removed. */
  method RemoveBackup(d: Disk, ghost a: Moment)
    requires Calm(a, d) && a.live[Migration].None?
    modifies d
    ensures Calm(a, d) && Grown(old(d.m), d.m) && d.m.live[Candidate] == old(d.m).live[Candidate] && d.refused >= old(d.refused)
    ensures old(d.struck) ==> d.struck
    ensures d.m.live[Migration].None? || (d.m.live[Migration] == old(d.m).live[Migration] && d.refused > old(d.refused))
  {
    var gone := d.Unlink(Migration);
    if gone {
      var forced := d.SyncDir();
    }
  }

  /** A journal that no transaction takes. */
  ghost predicate BadJournal(m: Moment)
    requires Valid(m)
  {
    m.live[State].Some? && var file := m.files[m.live[State].value]; !file.isPrivate || |file.bytes| == 0 || |file.bytes| > LIMIT
  }

  /** The journal as it was, for the callback: it has to be private and of a sensible size. */
  method ReadJournal(d: Disk, ghost a: Moment) returns (ok: bool, journal: Option<seq<byte>>)
    requires Calm(a, d)
    modifies d`faults, d`struck
    ensures Calm(a, d)
    ensures if ok then journal == Content(a, State) && !BadJournal(a) else d.struck || BadJournal(a)
    ensures old(d.struck) ==> d.struck
  {
    var r := d.Open(State);
    match r
    case NotOpened =>
      ok, journal := false, None;
    case NotThere =>
      ok, journal := true, None;
    case Opened(id) =>
      var unreadable := d.Fault();
      var file := d.m.files[id];
      ok := !unreadable && file.isPrivate && 0 < |file.bytes| <= LIMIT;
      journal := Some(file.bytes);
  }

  ghost predicate ForeignCandidate(m: Moment)
    requires Valid(m)
  {
    m.live[Candidate].Some? && !m.files[m.live[Candidate].value].isPrivate
  }

  /** A crash may have left a candidate; anything but a private file there is left alone. */
  method RemoveLeftover(d: Disk, ghost a: Moment) returns (ok: bool)
    requires Calm(a, d) && d.m == a
    modifies d
    ensures Calm(a, d) && d.m.live[Migration] == a.live[Migration] && d.refused >= old(d.refused) && (old(d.struck) ==> d.struck)
    ensures if ok then d.m.live[Candidate].None? && !ForeignCandidate(a) else d.m == a && (d.struck || ForeignCandidate(a))
  {
    var left := d.Open(Candidate);
    match left
    case NotOpened =>
      ok := false;
    case NotThere =>
      ok := true;
    case Opened(c) =>
      ok := d.m.files[c].isPrivate;
      if ok {
        ok := d.Unlink(Candidate);
      }
  }

  /** A leftover candidate goes, a new one is written, forced to the disk and closed. */
  method PrepareCandidate(d: Disk, data: seq<byte>, ghost a: Moment) returns (ok: bool, owned: bool, ghost id: nat)
    requires Calm(a, d) && d.m == a
    modifies d
    ensures Calm(a, d) && d.m.live[Migration] == a.live[Migration] && d.refused >= old(d.refused) && (old(d.struck) ==> d.struck)
    ensures ok ==> owned && |a.files| <= id < |d.m.files| && d.m.files[id].synced && d.m.files[id].bytes == data && d.m.live[Candidate] == Some(id)
    ensures if ok then !ForeignCandidate(a) else d.struck || ForeignCandidate(a)
    ensures if owned then d.m.live[Candidate].Some? else d.m.live[Candidate].None? || d.m.live[Candidate] == a.live[Candidate]
  {
    hide Untouched, Valid;
    owned, id := false, 0;
    ok := RemoveLeftover(d, a);
    if !ok {
      return;
    }
    ok := false;
    var out := NewFile(d, Candidate, a);
    if !out.Opened? {
      return;
    }
    owned, id := true, out.id;
    ok := WriteAll(d, out.id, data, a);
    if ok {
      ok := SyncFile(d, out.id, a);
    }
    if ok {
      var closing := d.Fault();
      ok := !closing;
    }
  }

  /** A moment of a transaction: before the rename the journal is untouched, after it the whole
      replacement is in place, and behind it the whole backup, if one was asked for. */
  ghost predicate Safe(a: Moment, m: Moment, reply: Reply)
    requires Valid(a)
  {
    Untouched(a, m) ||
    (reply.Reply? && reply.replacement.Some? &&
      var backup := if reply.backup then Content(a, State) else None;
      (reply.backup ==> backup.Some?) && exists id: nat :: Published(a, m, id, reply.replacement.value, backup))
  }

  /** The replacement is there to stay, and so is the backup, if one was asked for. */
  ghost predicate Durable(a: Moment, m: Moment, reply: Reply)
    requires Valid(a)
  {
    reply.Reply? && reply.replacement.Some? &&
    var backup := if reply.backup then Content(a, State) else None;
    (reply.backup ==> backup.Some?) && exists id: nat :: Published(a, m, id, reply.replacement.value, backup) && m.durable[State] == {Some(id)}
  }

  /** What a transaction stored is what is read from then on, running or after a crash. */
  lemma DurableReads(a: Moment, m: Moment, reply: Reply, bytes: Option<seq<byte>>)
    requires Valid(a) && Durable(a, m, reply)
    ensures Valid(m) && Content(m, State) == reply.replacement && (MayRead(m, State, bytes) ==> bytes == reply.replacement)
    ensures reply.backup && MayRead(m, Migration, bytes) ==> bytes == Content(a, State)
  {
    var backup := if reply.backup then Content(a, State) else None;
    var id: nat :| Published(a, m, id, reply.replacement.value, backup) && m.durable[State] == {Some(id)};
    if reply.backup && MayRead(m, Migration, bytes) {
      PublishedBackup(a, m, id, reply.replacement.value, backup);
      BackupReads(m, backup.value, bytes);
    }
  }

  /** What a transaction refuses: a journal, a reply, a leftover or a backup that is not as it has to be. */
  ghost predicate Declined(a: Moment, reply: Reply)
    requires Valid(a)
  {
    BadJournal(a) || reply.Refusal? ||
    (reply.replacement.Some? && (|reply.replacement.value| == 0 || |reply.replacement.value| > LIMIT || DeclinedBeside(a, reply)))
  }

  /** The journal and the reply are good, and still nothing may be stored. */
  ghost predicate DeclinedBeside(a: Moment, reply: Reply)
    requires Valid(a) && reply.Reply?
  {
    ForeignCandidate(a) || (reply.backup && (Content(a, State).None? || OtherBackup(a, Content(a, State).value)))
  }

  /** Nothing is left behind but what could not be removed, and the backup is only touched for a backup. */
  ghost predicate Tidy(a: Moment, m: Moment, reply: Reply, outcome: Outcome, refused: bool)
    requires Valid(a)
  {
    Valid(m) &&
    (m.live[Candidate].None? || (outcome == NotStored && (m.live[Candidate] == a.live[Candidate] || refused)) || (outcome == NothingToStore && m == a)) &&
    ((reply.Reply? && reply.backup) || m.live[Migration] == a.live[Migration])
  }

  /** Whenever the machine stops, the journal reads as it might have before or as the whole
      replacement; running programs see the old one or the new one. */
  lemma CrashReads(a: Moment, m: Moment, reply: Reply, bytes: Option<seq<byte>>)
    requires Valid(a) && Safe(a, m, reply) && MayRead(m, State, bytes)
    ensures MayRead(a, State, bytes) || (reply.Reply? && reply.replacement.Some? && bytes == reply.replacement)
    ensures Valid(m) && (Content(m, State) == Content(a, State) || (reply.Reply? && Content(m, State) == reply.replacement))
  {
    if Untouched(a, m) {
      UntouchedReads(a, m, bytes);
    } else {
      var backup := if reply.backup then Content(a, State) else None;
      var id: nat :| Published(a, m, id, reply.replacement.value, backup);
      PublishedReads(a, m, id, reply.replacement.value, backup, bytes);
    }
  }

  /** Once a replacement may be seen, the backup that was asked for reads as the old journal. */
  lemma BackupBeforeReplacement(a: Moment, m: Moment, reply: Reply, bytes: Option<seq<byte>>)
    requires Valid(a) && Safe(a, m, reply) && !Untouched(a, m) && reply.Reply? && reply.backup && MayRead(m, Migration, bytes)
    ensures bytes == Content(a, State) && bytes.Some?
  {
    var backup := Content(a, State);
    var id: nat :| Published(a, m, id, reply.replacement.value, backup);
    PublishedBackup(a, m, id, reply.replacement.value, backup);
    BackupReads(m, backup.value, bytes);
  }

  lemma PublishedBackup(a: Moment, m: Moment, id: nat, data: seq<byte>, backup: Option<seq<byte>>)
    requires Published(a, m, id, data, backup) && backup.Some?
    ensures BackedUp(m, backup.value)
  {
  }

  /** A backup from before is never lost or replaced, not even by an equal one. */
  lemma OldBackupReads(a: Moment, m: Moment, reply: Reply, bytes: Option<seq<byte>>)
    requires Valid(a) && Safe(a, m, reply) && a.live[Migration].Some? && MayRead(m, Migration, bytes)
    ensures Valid(m) && MayRead(a, Migration, bytes) && m.live[Migration] == a.live[Migration] && Content(m, Migration) == Content(a, Migration)
  {
    SafeKeepsBackup(a, m, reply);
    var x :| x in m.durable[Migration] && Reads(m, x, bytes);
    assert x in a.durable[Migration] && Reads(a, x, bytes);
  }

  lemma PublishedKeepsBackup(a: Moment, m: Moment, id: nat, data: seq<byte>, backup: Option<seq<byte>>)
    requires Published(a, m, id, data, backup)
    ensures Valid(m) && Grown(a, m) && BackupKept(a, m)
  {
  }

  lemma SafeKeepsBackup(a: Moment, m: Moment, reply: Reply)
    requires Valid(a) && Safe(a, m, reply)
    ensures Valid(m) && Grown(a, m) && BackupKept(a, m)
  {
    hide Grown;
    if !Untouched(a, m) {
      var backup := if reply.backup then Content(a, State) else None;
      var id: nat :| Published(a, m, id, reply.replacement.value, backup);
      PublishedKeepsBackup(a, m, id, reply.replacement.value, backup);
    }
  }

  ghost predicate AllSafe(a: Moment, d: Disk, reply: Reply)
    requires Valid(a)
    reads d
  {
    d.Ok() && forall k | 0 <= k < |d.log| :: Safe(a, d.log[k], reply)
  }

  lemma CalmIsSafe(a: Moment, d: Disk, reply: Reply)
    requires Calm(a, d)
    ensures AllSafe(a, d, reply)
  {
  }

  /** The rename and the last fsync. */
  method Commit(d: Disk, ghost id: nat, ghost a: Moment, ghost reply: Reply) returns (outcome: Outcome)
    requires Calm(a, d) && |a.files| <= id < |d.m.files| && d.m.live[Candidate] == Some(id) && d.m.files[id].synced
    requires reply.Reply? && reply.replacement == Some(d.m.files[id].bytes)
    requires reply.backup ==> Content(a, State).Some? && BackedUp(d.m, Content(a, State).value)
    modifies d
    ensures AllSafe(a, d, reply)
    ensures outcome == NotStored ==> Calm(a, d)
    ensures outcome == Committed ==> Durable(a, d.m, reply)
    ensures outcome == Committed || outcome == NotStored || outcome == DurabilityUnknown
    ensures d.struck == (old(d.struck) || outcome != Committed) && d.refused == old(d.refused)
    ensures d.m.live[Migration] == old(d.m).live[Migration]
    ensures d.m.live[Candidate] == if outcome == NotStored then old(d.m).live[Candidate] else None
  {
    ghost var data, backup := reply.replacement.value, if reply.backup then Content(a, State) else None;
    CalmIsSafe(a, d, reply);
    var ok := d.RenameCandidate();
    if !ok {
      return NotStored;
    }
    ghost var renamed := d.m;
    assert Published(a, renamed, id, data, backup);
    assert Safe(a, renamed, reply);
    ok := d.SyncDir();
    assert Published(a, d.m, id, data, backup);
    assert Safe(a, d.m, reply);
    outcome := if ok then Committed else DurabilityUnknown;
  }

  /** transaction: the callback sees the journal and may answer with its replacement. */
  method Transaction(d: Disk, callback: Option<seq<byte>> -> Reply) returns (outcome: Outcome)
    requires d.Ok() && d.log == [d.m] && d.faults == d.given && !d.struck
    modifies d
    ensures var a := old(d.m);
            var reply := callback(Content(a, State));
            AllSafe(a, d, reply) && Tidy(a, d.m, reply, outcome, d.refused > old(d.refused)) &&
            (outcome == NotStored ==> Calm(a, d)) &&
            (outcome == NothingToStore ==> d.m == a && reply.Reply? && reply.replacement.None?) &&
            (outcome == Committed ==> Durable(a, d.m, reply)) &&
            (outcome == DurabilityUnknown ==> d.struck && reply.Reply? && reply.replacement.Some?)
    ensures var reply := callback(Content(old(d.m), State));
            (Declined(old(d.m), reply) ==> outcome == NotStored) &&
            (outcome == NotStored ==> d.struck || Declined(old(d.m), reply)) &&
            (true !in old(d.faults) && !Declined(old(d.m), reply) ==> outcome == if reply.replacement.None? then NothingToStore else Committed)
  {
    hide Untouched, Grown, Published, BackedUp;
    ghost var a, reply := d.m, callback(Content(d.m, State));
    Nothing(d.m);
    CalmIsSafe(a, d, reply);
    var busy := d.Fault();
    if busy {
      return NotStored;
    }
    var ok, journal := ReadJournal(d, a);
    CalmIsSafe(a, d, reply);
    if !ok {
      return NotStored;
    }
    var answer := callback(journal);
    if answer.Refusal? {
      return NotStored;
    }
    if answer.replacement.None? {
      return NothingToStore;
    }
    outcome := Replace(d, journal, answer, a);
  }

  lemma Nothing(m: Moment)
    requires Valid(m)
    ensures Untouched(m, m)
  {
  }

  method Replace(d: Disk, journal: Option<seq<byte>>, reply: Reply, ghost a: Moment) returns (outcome: Outcome)
    requires Calm(a, d) && d.m == a && journal == Content(a, State) && !BadJournal(a) && reply.Reply? && reply.replacement.Some?
    modifies d
    ensures Tidy(a, d.m, reply, outcome, d.refused > old(d.refused)) && (old(d.struck) ==> d.struck)
    ensures if Declined(a, reply) then outcome == NotStored else outcome == Committed || d.struck
    ensures AllSafe(a, d, reply)
    ensures outcome == Committed || outcome == NotStored || outcome == DurabilityUnknown
    ensures outcome == NotStored ==> Calm(a, d)
    ensures outcome == Committed ==> Durable(a, d.m, reply)
  {
    hide Untouched, Grown, Published, BackedUp, Durable, Safe;
    var data := reply.replacement.value;
    if |data| == 0 || |data| > LIMIT {
      CalmIsSafe(a, d, reply);
      return NotStored;
    }
    var ok, owned;
    ghost var id;
    ok, owned, id := PrepareCandidate(d, data, a);
    if ok && reply.backup {
      SameBackup(a, d.m);
      if journal.None? {
        ok := false;
      } else {
        ok := MigrationBackup(d, journal.value, a);
      }
    }
    outcome := NotStored;
    if ok {
      outcome := Commit(d, id, a, reply);
    }
    if outcome == NotStored {
      CleanUp(d, owned, a, reply);
    }
  }

  method CleanUp(d: Disk, owned: bool, ghost a: Moment, ghost reply: Reply)
    requires Calm(a, d) && (owned ==> d.m.live[Candidate].Some?)
    modifies d
    ensures Calm(a, d) && AllSafe(a, d, reply) && (old(d.struck) ==> d.struck) && d.refused >= old(d.refused)
    ensures d.m.live[Migration] == old(d.m).live[Migration]
    ensures d.m.live[Candidate] == old(d.m).live[Candidate] || d.m.live[Candidate].None?
    ensures owned ==> d.m.live[Candidate].None? || d.refused > old(d.refused)
  {
    if owned {
      var gone := d.Unlink(Candidate);
    }
    CalmIsSafe(a, d, reply);
  }
}
