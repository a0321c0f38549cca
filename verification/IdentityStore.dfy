/**
 * Creating and rotating the identity file: concurrent processes, a crash at any point, and an inode
 * model of link, rename, fsync, scrub and unlink (packages/cli/src/store.ts).
 */
module IdentityStore {
  import opened Common

  /** What an inode holds. A temp is `Partial` until it is fully written and fsynced. */
  datatype Content = Partial | Secret(token: nat) | Scrubbed

  /**
   * One process inside `ensureIdentity` or `rotateIdentity`. `token` is the secret it writes, `prior`
   * the one it loaded, `tmp`/`copy` its own temp inodes, `fd` its handle on the replaced inode.
   */
  datatype Proc =
    | Ensuring(token: nat)                                // the probe found no file
    | EnsureStaged(token: nat, tmp: nat)                  // temp exists
    | EnsureSynced(tmp: nat)                              // temp written and fsynced
    | Rotating(token: nat, prior: nat, keep: bool)          // the old secret is loaded
    | RotateStaged(token: nat, prior: nat, keep: bool, tmp: nat)
    | RotateSynced(prior: nat, keep: bool, tmp: nat)
    | BackupStaged(prior: nat, tmp: nat, copy: nat)
    | BackupSynced(prior: nat, tmp: nat, copy: nat)
    | BackupLinked(prior: nat, tmp: nat, copy: nat)       // backupCreated
    | OldOpened(tmp: nat, fd: nat)
    | Replaced(handle: Option<nat>)                       // renamed, about to fsync the directory
    | DirSynced(fd: nat)                                  // about to scrub

  /**
   * `canonical` and `backup` are the two directory entries; `durable` and `saved` are every value that
   * each of them may have after a crash; `kept` are the backups that completed rotations left behind.
   */
  datatype Disk = Disk(
    inodes: map<nat, Content>,
    canonical: Option<nat>,
    backup: Option<nat>,
    durable: set<Option<nat>>,
    saved: set<Option<nat>>,
    procs: map<nat, Proc>,
    kept: set<nat>)

  datatype Action =
    | StartEnsure(p: nat, token: nat)
    | StartRotate(p: nat, token: nat, keep: bool)
    | Stage(p: nat, inode: nat)       // openSync(O_CREAT | O_EXCL) of a fresh temp
    | Sync(p: nat)                    // writeAll and fsync of that temp
    | Link(p: nat)                    // linkSync into place: exclusive
    | OpenOld(p: nat)
    | Rename(p: nat)
    | SyncDir(p: nat, ok: bool)       // fsyncDirBestEffort
    | Scrub(p: nat, over: bool)       // scrubFd: a failing one may leave the old bytes or overwritten ones
    | Fail(p: nat)                    // an error before the rename: the catch block cleans up
    | Crash(entry: Option<nat>, copy: Option<nat>) // power loss: each entry has one of its durable values

  predicate Live(d: Disk, p: nat) { p in d.procs }

  /** The temp inode a process is about to create has a fresh, unpredictable name. */
  predicate Stageable(q: Proc) { q.Ensuring? || q.Rotating? || (q.RotateSynced? && q.keep) }

  predicate Enabled(d: Disk, a: Action) {
    match a
    case StartEnsure(p, _) => p !in d.procs
    case StartRotate(p, _, _) =>
      p !in d.procs && d.canonical.Some? && d.canonical.value in d.inodes && d.inodes[d.canonical.value].Secret?
    case Stage(p, inode) => Live(d, p) && Stageable(d.procs[p]) && inode !in d.inodes
    case Sync(p) => Live(d, p) && (d.procs[p].EnsureStaged? || d.procs[p].RotateStaged? || d.procs[p].BackupStaged?)
    case Link(p) => Live(d, p) && (d.procs[p].EnsureSynced? || d.procs[p].BackupSynced?)
    case OpenOld(p) => Live(d, p) && d.procs[p].RotateSynced? && !d.procs[p].keep && d.canonical.Some?
    case Rename(p) => Live(d, p) && (d.procs[p].OldOpened? || d.procs[p].BackupLinked?)
    case SyncDir(p, _) => Live(d, p) && d.procs[p].Replaced?
    case Scrub(p, _) => Live(d, p) && d.procs[p].DirSynced?
    case Fail(p) => Live(d, p) && !d.procs[p].Replaced? && !d.procs[p].DirSynced?
    case Crash(entry, copy) => entry in d.durable && copy in d.saved
  }

  function Leave(d: Disk, p: nat): Disk { d.(procs := d.procs - {p}) }

  function Become(d: Disk, p: nat, q: Proc): Disk { d.(procs := d.procs[p := q]) }

  function Fill(d: Disk, inode: nat, c: Content): Disk { d.(inodes := d.inodes[inode := c]) }

  /** A change of the canonical entry: durable only from the next directory fsync on. */
  function Point(d: Disk, inode: nat): Disk {
    d.(canonical := Some(inode), durable := d.durable + {Some(inode)})
  }

  function SyncedDir(d: Disk): Disk { d.(durable := {d.canonical}, saved := {d.backup}) }

  /** A change of the backup entry, likewise. */
  function PointBackup(d: Disk, entry: Option<nat>): Disk {
    d.(backup := entry, saved := d.saved + {entry})
  }

  function Step(d: Disk, a: Action): Disk
    requires Enabled(d, a)
  {
    match a
    case StartEnsure(p, token) => if d.canonical.Some? then d else Become(d, p, Ensuring(token))
    case StartRotate(p, token, keep) => Become(d, p, Rotating(token, d.inodes[d.canonical.value].token, keep))
    case Stage(p, inode) =>
      var d' := Fill(d, inode, Partial);
      (match d.procs[p]
       case Ensuring(token) => Become(d', p, EnsureStaged(token, inode))
       case Rotating(token, prior, keep) => Become(d', p, RotateStaged(token, prior, keep, inode))
       case RotateSynced(prior, _, tmp) => Become(d', p, BackupStaged(prior, tmp, inode))
       case _ => d)
    case Sync(p) =>
      (match d.procs[p]
       case EnsureStaged(token, tmp) => Become(Fill(d, tmp, Secret(token)), p, EnsureSynced(tmp))
       case RotateStaged(token, prior, keep, tmp) =>
         Become(Fill(d, tmp, Secret(token)), p, RotateSynced(prior, keep, tmp))
       case BackupStaged(prior, tmp, copy) => Become(Fill(d, copy, Secret(prior)), p, BackupSynced(prior, tmp, copy))
       case _ => d)
    case Link(p) =>
      (match d.procs[p]
       case EnsureSynced(tmp) => if d.canonical.Some? then Leave(d, p) else Leave(Point(d, tmp), p)
       case BackupSynced(prior, tmp, copy) =>
         if d.backup.Some? then Leave(d, p) else Become(PointBackup(d, Some(copy)), p, BackupLinked(prior, tmp, copy))
       case _ => d)
    case OpenOld(p) => Become(d, p, OldOpened(d.procs[p].tmp, d.canonical.value))
    case Rename(p) =>
      (match d.procs[p]
       case OldOpened(tmp, fd) => Become(Point(d, tmp), p, Replaced(Some(fd)))
       case BackupLinked(_, tmp, copy) => Become(Point(d, tmp).(kept := d.kept + {copy}), p, Replaced(None))
       case _ => d)
    case SyncDir(p, ok) =>
      var d' := if ok then SyncedDir(d) else d;
      if d.procs[p].handle.Some? then Become(d', p, DirSynced(d.procs[p].handle.value)) else Leave(d', p)
    case Scrub(p, over) => Leave(if over then Fill(d, d.procs[p].fd, Scrubbed) else d, p)
    case Fail(p) => Leave(if d.procs[p].BackupLinked? then PointBackup(d, None) else d, p)
    case Crash(entry, copy) =>
      d.(canonical := entry, durable := {entry}, backup := copy, saved := {copy}, procs := map[])
  }

  predicate Runs(d: Disk, actions: seq<Action>)
    decreases actions
  {
    actions == [] || (Enabled(d, actions[0]) && Runs(Step(d, actions[0]), actions[1..]))
  }

  function Run(d: Disk, actions: seq<Action>): Disk
    requires Runs(d, actions)
    decreases actions
  {
    if actions == [] then d else Run(Step(d, actions[0]), actions[1..])
  }

  // ---------------------------------------------------------------------------------------------
  // The invariant
  // ---------------------------------------------------------------------------------------------

  predicate Complete(d: Disk, entry: Option<nat>) {
    entry.Some? ==> entry.value in d.inodes && d.inodes[entry.value].Secret?
  }

  /** The temps a process owns: inodes no directory entry names yet. */
  function Temps(q: Proc): set<nat> {
    match q
    case EnsureStaged(_, tmp) => {tmp}
    case EnsureSynced(tmp) => {tmp}
    case RotateStaged(_, _, _, tmp) => {tmp}
    case RotateSynced(_, _, tmp) => {tmp}
    case BackupStaged(_, tmp, copy) => {tmp, copy}
    case BackupSynced(_, tmp, copy) => {tmp, copy}
    case BackupLinked(_, tmp, _) => {tmp}
    case OldOpened(tmp, _) => {tmp}
    case _ => {}
  }

  /** The temp that is ready to become canonical. */
  function Finished(q: Proc): Option<nat> {
    match q
    case EnsureSynced(tmp) => Some(tmp)
    case RotateSynced(_, _, tmp) => Some(tmp)
    case BackupStaged(_, tmp, _) => Some(tmp)
    case BackupSynced(_, tmp, _) => Some(tmp)
    case BackupLinked(_, tmp, _) => Some(tmp)
    case OldOpened(tmp, _) => Some(tmp)
    case _ => None
  }

  /** The replaced inode a process will scrub. */
  function Doomed(q: Proc): Option<nat> {
    match q
    case Replaced(fd) => fd
    case DirSynced(fd) => Some(fd)
    case _ => None
  }

  function Handle(q: Proc): Option<nat> {
    match q
    case OldOpened(_, fd) => Some(fd)
    case _ => Doomed(q)
  }

  /** Inodes named, or possibly named after a crash, by the canonical entry. */
  ghost predicate Named(d: Disk, i: nat) { d.canonical == Some(i) || Some(i) in d.durable }

  /** A process's inodes as the disk sees them: its temps are unnamed, a finished one is complete. */
  ghost predicate ProcOk(d: Disk, q: Proc) {
    && (forall i :: i in Temps(q) ==> i in d.inodes && !Named(d, i) && Some(i) !in d.saved)
    && Complete(d, Finished(q))
    && (q.BackupStaged? || q.BackupSynced? ==> q.tmp != q.copy)
    && (Handle(q).Some? ==> Handle(q).value in d.inodes && Handle(q).value !in Temps(q))
    && (Handle(q).Some? ==> Handle(q) !in d.saved)
    && (Doomed(q).Some? ==> d.canonical != Doomed(q))
    && (q.BackupSynced? ==> d.inodes[q.copy] == Secret(q.prior))
    && (q.BackupLinked? ==> d.backup == Some(q.copy) && q.copy in d.inodes && d.inodes[q.copy] == Secret(q.prior))
  }

  /** Two processes never share a temp, and neither holds the other's open. */
  predicate Apart(q: Proc, r: Proc) {
    && Temps(q) !! Temps(r)
    && (Handle(q).Some? ==> Handle(q).value !in Temps(r))
    && (Handle(r).Some? ==> Handle(r).value !in Temps(q))
    && !(q.BackupLinked? && r.BackupLinked?)
  }

  ghost predicate EntriesOk(d: Disk) {
    && Complete(d, d.canonical)
    && d.canonical in d.durable
    && (forall i :: Some(i) in d.durable ==> i in d.inodes)
    && d.backup in d.saved
    && (forall i :: Some(i) in d.saved ==> i in d.inodes && d.inodes[i].Secret? && !Named(d, i))
  }

  ghost predicate Consistent(d: Disk) {
    && EntriesOk(d)
    && (forall p :: p in d.procs ==> ProcOk(d, d.procs[p]))
    && (forall p, q :: p in d.procs && q in d.procs && p != q ==> Apart(d.procs[p], d.procs[q]))
  }

  /** What the directory fsync buys: no entry that may survive a crash names a scrubbed or doomed inode. */
  ghost predicate DurablySafe(d: Disk) {
    && (forall entry :: entry in d.durable ==> Complete(d, entry))
    && (forall p :: p in d.procs && d.procs[p].DirSynced? ==> Some(d.procs[p].fd) !in d.durable)
  }

  /** `d'` differs from `d` at most in the inodes `m`, and its entries name only those or what `d`'s named. */
  ghost predicate Within(d: Disk, d': Disk, m: set<nat>) {
    && d.inodes.Keys <= d'.inodes.Keys
    && (forall i :: i in d.inodes && i !in m ==> d'.inodes[i] == d.inodes[i])
    && (d'.canonical == d.canonical || (d'.canonical.Some? && d'.canonical.value in m))
    && (forall i :: Some(i) in d'.durable ==> Some(i) in d.durable || i in m)
    && (forall i :: Some(i) in d'.saved ==> Some(i) in d.saved || i in m)
  }

  lemma OtherStaysOk(d: Disk, d': Disk, r: Proc, m: set<nat>)
    requires EntriesOk(d) && ProcOk(d, r) && Within(d, d', m) && m !! Temps(r)
    requires d'.canonical != d.canonical ==> Handle(r) != d'.canonical
    requires d'.backup != d.backup ==> !r.BackupLinked?
    requires Handle(r).Some? ==> Handle(r) !in d'.saved
    requires r.BackupLinked? ==> r.copy !in m
    ensures ProcOk(d', r)
  {
  }

  /** Process `p` moves to `q` (or leaves), touching only inodes `m` that are no other process's temps. */
  lemma MoveKeepsConsistent(d: Disk, d': Disk, p: nat, m: set<nat>)
    requires Consistent(d) && EntriesOk(d') && Within(d, d', m)
    requires d'.procs.Keys <= d.procs.Keys + {p}
    requires forall r :: r in d'.procs && r != p ==> d'.procs[r] == d.procs[r] && m !! Temps(d.procs[r])
    requires forall r :: r in d'.procs && r != p && d'.canonical != d.canonical ==> Handle(d.procs[r]) != d'.canonical
    requires forall r :: r in d'.procs && r != p && d'.backup != d.backup ==> !d.procs[r].BackupLinked?
    requires forall r :: r in d'.procs && r != p && Handle(d.procs[r]).Some? ==> Handle(d.procs[r]) !in d'.saved
    requires forall i :: Some(i) in d.saved ==> i !in m
    requires p in d'.procs ==> ProcOk(d', d'.procs[p])
    requires p in d'.procs ==> forall r :: r in d'.procs && r != p ==> Apart(d'.procs[p], d'.procs[r])
    ensures Consistent(d')
  {
    forall r | r in d'.procs ensures ProcOk(d', d'.procs[r]) {
      if r != p {
        OtherStaysOk(d, d', d.procs[r], m);
      }
    }
  }

  lemma StartKeepsConsistent(d: Disk, a: Action)
    requires Consistent(d) && Enabled(d, a) && (a.StartEnsure? || a.StartRotate?)
    ensures Consistent(Step(d, a))
  {
    MoveKeepsConsistent(d, Step(d, a), a.p, {});
  }

  /** The step of a process that changes temps only, not the entries. */
  lemma TempStepKeepsConsistent(d: Disk, p: nat, q: Proc, inode: nat, c: Content)
    requires Consistent(d) && p in d.procs
    requires inode in Temps(d.procs[p]) || inode !in d.inodes
    requires Temps(q) <= Temps(d.procs[p]) + {inode} && Handle(q) == Handle(d.procs[p])
    requires Doomed(q) == Doomed(d.procs[p]) && (q.BackupStaged? || q.BackupSynced? ==> q.tmp != q.copy)
    requires Finished(q).Some? ==> if Finished(q).value == inode then c.Secret? else Finished(q) == Finished(d.procs[p])
    requires !q.BackupLinked? && (q.BackupSynced? ==> q.copy == inode && c == Secret(q.prior))
    ensures Consistent(Become(Fill(d, inode, c), p, q))
  {
    var d' := Become(Fill(d, inode, c), p, q);
    forall r | r in d.procs && r != p ensures inode !in Temps(d.procs[r]) && Apart(q, d.procs[r]) {
      TempsStayApart(d, p, q, inode, r);
    }
    TempStepOk(d, p, q, inode, c);
    MoveKeepsConsistent(d, d', p, {inode});
  }

  lemma TempStepOk(d: Disk, p: nat, q: Proc, inode: nat, c: Content)
    requires EntriesOk(d) && p in d.procs && ProcOk(d, d.procs[p])
    requires inode in Temps(d.procs[p]) || inode !in d.inodes
    requires Temps(q) <= Temps(d.procs[p]) + {inode} && Handle(q) == Handle(d.procs[p])
    requires Doomed(q) == Doomed(d.procs[p]) && (q.BackupStaged? || q.BackupSynced? ==> q.tmp != q.copy)
    requires Finished(q).Some? ==> if Finished(q).value == inode then c.Secret? else Finished(q) == Finished(d.procs[p])
    requires !q.BackupLinked? && (q.BackupSynced? ==> q.copy == inode && c == Secret(q.prior))
    ensures var d' := Become(Fill(d, inode, c), p, q);
            EntriesOk(d') && Within(d, d', {inode}) && ProcOk(d', q)
  {
  }

  lemma TempsStayApart(d: Disk, p: nat, q: Proc, inode: nat, r: nat)
    requires Consistent(d) && p in d.procs && r in d.procs && r != p
    requires inode in Temps(d.procs[p]) || inode !in d.inodes
    requires Temps(q) <= Temps(d.procs[p]) + {inode} && Handle(q) == Handle(d.procs[p]) && !q.BackupLinked?
    ensures inode !in Temps(d.procs[r]) && Handle(d.procs[r]) != Some(inode) && Apart(q, d.procs[r])
  {
    assert Apart(d.procs[p], d.procs[r]) && ProcOk(d, d.procs[r]);
  }

  lemma StageKeepsConsistent(d: Disk, a: Action)
    requires Consistent(d) && Enabled(d, a) && a.Stage?
    ensures Consistent(Step(d, a))
  {
    assert ProcOk(d, d.procs[a.p]);
    match d.procs[a.p]
    case Ensuring(token) => TempStepKeepsConsistent(d, a.p, EnsureStaged(token, a.inode), a.inode, Partial);
    case Rotating(token, prior, keep) =>
      TempStepKeepsConsistent(d, a.p, RotateStaged(token, prior, keep, a.inode), a.inode, Partial);
    case RotateSynced(prior, _, tmp) =>
      TempStepKeepsConsistent(d, a.p, BackupStaged(prior, tmp, a.inode), a.inode, Partial);
    case _ =>
  }

  lemma SyncKeepsConsistent(d: Disk, a: Action)
    requires Consistent(d) && Enabled(d, a) && a.Sync?
    ensures Consistent(Step(d, a))
  {
    assert ProcOk(d, d.procs[a.p]);
    match d.procs[a.p]
    case EnsureStaged(token, tmp) => TempStepKeepsConsistent(d, a.p, EnsureSynced(tmp), tmp, Secret(token));
    case RotateStaged(token, prior, keep, tmp) =>
      TempStepKeepsConsistent(d, a.p, RotateSynced(prior, keep, tmp), tmp, Secret(token));
    case BackupStaged(prior, tmp, copy) =>
      TempStepKeepsConsistent(d, a.p, BackupSynced(prior, tmp, copy), copy, Secret(prior));
    case _ =>
  }

  lemma OpenOldKeepsConsistent(d: Disk, a: Action)
    requires Consistent(d) && Enabled(d, a) && a.OpenOld?
    ensures Consistent(Step(d, a))
  {
    var q := d.procs[a.p];
    var after := OldOpened(q.tmp, d.canonical.value);
    assert ProcOk(d, q) && ProcOk(Step(d, a), after);
    forall r | r in d.procs && r != a.p ensures Apart(after, d.procs[r]) {
      assert Apart(q, d.procs[r]) && ProcOk(d, d.procs[r]);
    }
    MoveKeepsConsistent(d, Step(d, a), a.p, {});
  }

  /** A finished temp becomes canonical. */
  lemma PointKeepsConsistent(d: Disk, p: nat, q: Proc, tmp: nat, kept: set<nat>)
    requires Consistent(d) && p in d.procs && Finished(d.procs[p]) == Some(tmp) && tmp in Temps(d.procs[p])
    requires Temps(q) == {} && (Handle(q).Some? ==> Handle(q) == Handle(d.procs[p])) && !q.BackupLinked?
    ensures Consistent(Become(Point(d, tmp).(kept := kept), p, q))
  {
    var d' := Become(Point(d, tmp).(kept := kept), p, q);
    assert ProcOk(d, d.procs[p]);
    forall r | r in d.procs && r != p ensures tmp !in Temps(d.procs[r]) && Handle(d.procs[r]) != Some(tmp) {
      assert Apart(d.procs[p], d.procs[r]);
    }
    assert ProcOk(d', q);
    MoveKeepsConsistent(d, d', p, {tmp});
  }

  lemma RenameKeepsConsistent(d: Disk, a: Action)
    requires Consistent(d) && Enabled(d, a) && a.Rename?
    ensures Consistent(Step(d, a))
  {
    match d.procs[a.p]
    case OldOpened(tmp, fd) => PointKeepsConsistent(d, a.p, Replaced(Some(fd)), tmp, d.kept);
    case BackupLinked(_, tmp, copy) => PointKeepsConsistent(d, a.p, Replaced(None), tmp, d.kept + {copy});
    case _ =>
  }

  lemma LeaveKeepsConsistent(d: Disk, p: nat)
    requires Consistent(d)
    ensures Consistent(Leave(d, p))
  {
    MoveKeepsConsistent(d, Leave(d, p), p, {});
  }

  lemma RelabelKeepsConsistent(d: Disk, p: nat, q: Proc)
    requires Consistent(d) && p in d.procs
    requires Temps(q) <= Temps(d.procs[p]) && (Handle(q).Some? ==> Handle(q) == Handle(d.procs[p]))
    requires Doomed(q).Some? ==> Doomed(q) == Doomed(d.procs[p])
    requires Finished(q).Some? ==> Finished(q) == Finished(d.procs[p])
    requires !q.BackupStaged? && !q.BackupSynced? && !q.BackupLinked?
    ensures Consistent(Become(d, p, q))
  {
    assert ProcOk(d, d.procs[p]);
    MoveKeepsConsistent(d, Become(d, p, q), p, {});
  }

  lemma FewerDurableKeepsConsistent(d: Disk)
    requires Consistent(d)
    ensures Consistent(SyncedDir(d))
  {
    var d' := SyncedDir(d);
    forall p | p in d.procs ensures ProcOk(d', d.procs[p]) {
      OtherStaysOk(d, d', d.procs[p], {});
    }
  }

  lemma BackupKeepsConsistent(d: Disk, p: nat, prior: nat, tmp: nat, copy: nat)
    requires Consistent(d) && p in d.procs && d.procs[p] == BackupSynced(prior, tmp, copy) && d.backup.None?
    ensures Consistent(Become(PointBackup(d, Some(copy)), p, BackupLinked(prior, tmp, copy)))
  {
    var q := BackupLinked(prior, tmp, copy);
    assert ProcOk(d, d.procs[p]) && copy in Temps(d.procs[p]);
    forall r | r in d.procs && r != p
      ensures copy !in Temps(d.procs[r]) && Handle(d.procs[r]) != Some(copy) && Apart(q, d.procs[r])
      ensures !d.procs[r].BackupLinked?
    {
      BackupStaysApart(d, p, q, r);
    }
    LinkedBackupOk(d, p, q);
    MoveKeepsConsistent(d, Become(PointBackup(d, Some(copy)), p, q), p, {copy});
  }

  lemma LinkedBackupOk(d: Disk, p: nat, q: Proc)
    requires EntriesOk(d) && p in d.procs && d.procs[p].BackupSynced? && ProcOk(d, d.procs[p])
    requires q == BackupLinked(d.procs[p].prior, d.procs[p].tmp, d.procs[p].copy)
    ensures var d' := Become(PointBackup(d, Some(q.copy)), p, q);
            EntriesOk(d') && Within(d, d', {q.copy}) && ProcOk(d', q)
  {
    assert q.copy in Temps(d.procs[p]);
  }

  lemma BackupStaysApart(d: Disk, p: nat, q: Proc, r: nat)
    requires Consistent(d) && p in d.procs && d.procs[p].BackupSynced? && d.backup.None? && r in d.procs && r != p
    requires q == BackupLinked(d.procs[p].prior, d.procs[p].tmp, d.procs[p].copy)
    ensures q.copy !in Temps(d.procs[r]) && Handle(d.procs[r]) != Some(q.copy) && Apart(q, d.procs[r])
    ensures !d.procs[r].BackupLinked?
  {
    assert Apart(d.procs[p], d.procs[r]) && ProcOk(d, d.procs[r]);
  }

  lemma EnsureLinkKeepsConsistent(d: Disk, p: nat, tmp: nat)
    requires Consistent(d) && p in d.procs && d.procs[p] == EnsureSynced(tmp)
    ensures Consistent(Leave(Point(d, tmp), p))
  {
    assert ProcOk(d, d.procs[p]) && tmp in Temps(d.procs[p]);
    forall r | r in d.procs && r != p ensures tmp !in Temps(d.procs[r]) && Handle(d.procs[r]) != Some(tmp) {
      assert Apart(d.procs[p], d.procs[r]);
    }
    MoveKeepsConsistent(d, Leave(Point(d, tmp), p), p, {tmp});
  }

  lemma LinkKeepsConsistent(d: Disk, a: Action)
    requires Consistent(d) && Enabled(d, a) && a.Link?
    ensures Consistent(Step(d, a))
  {
    LeaveKeepsConsistent(d, a.p);
    match d.procs[a.p]
    case EnsureSynced(tmp) => EnsureLinkKeepsConsistent(d, a.p, tmp);
    case BackupSynced(prior, tmp, copy) =>
      if d.backup.None? {
        BackupKeepsConsistent(d, a.p, prior, tmp, copy);
      }
    case _ =>
  }

  lemma SyncDirKeepsConsistent(d: Disk, a: Action)
    requires Consistent(d) && Enabled(d, a) && a.SyncDir?
    ensures Consistent(Step(d, a))
  {
    var d' := if a.ok then SyncedDir(d) else d;
    FewerDurableKeepsConsistent(d);
    if d.procs[a.p].handle.Some? {
      RelabelKeepsConsistent(d', a.p, DirSynced(d.procs[a.p].handle.value));
    } else {
      LeaveKeepsConsistent(d', a.p);
    }
  }

  lemma ScrubKeepsConsistent(d: Disk, a: Action)
    requires Consistent(d) && Enabled(d, a) && a.Scrub?
    ensures Consistent(Step(d, a))
  {
    MoveKeepsConsistent(d, Step(d, a), a.p, {d.procs[a.p].fd});
  }

  lemma FailKeepsConsistent(d: Disk, a: Action)
    requires Consistent(d) && Enabled(d, a) && a.Fail?
    ensures Consistent(Step(d, a))
  {
    MoveKeepsConsistent(d, Step(d, a), a.p, {});
  }

  lemma StepKeepsConsistent(d: Disk, a: Action)
    requires Consistent(d) && Enabled(d, a) && !a.Crash?
    ensures Consistent(Step(d, a))
  {
    match a
    case StartEnsure(_, _) => StartKeepsConsistent(d, a);
    case StartRotate(_, _, _) => StartKeepsConsistent(d, a);
    case Stage(_, _) => StageKeepsConsistent(d, a);
    case Sync(_) => SyncKeepsConsistent(d, a);
    case Link(_) => LinkKeepsConsistent(d, a);
    case OpenOld(_) => OpenOldKeepsConsistent(d, a);
    case Rename(_) => RenameKeepsConsistent(d, a);
    case SyncDir(_, _) => SyncDirKeepsConsistent(d, a);
    case Scrub(_, _) => ScrubKeepsConsistent(d, a);
    case Fail(_) => FailKeepsConsistent(d, a);
  }

  // ---------------------------------------------------------------------------------------------
  // Durability
  // ---------------------------------------------------------------------------------------------

  predicate Reliable(a: Action) { a.SyncDir? ==> a.ok }

  lemma FillKeepsDurable(d: Disk, inode: nat, c: Content)
    requires DurablySafe(d) && Some(inode) !in d.durable
    ensures forall entry :: entry in d.durable ==> Complete(Fill(d, inode, c), entry)
  {
  }

  lemma PointKeepsDurable(d: Disk, p: nat, tmp: nat)
    requires Consistent(d) && DurablySafe(d) && p in d.procs
    requires Finished(d.procs[p]) == Some(tmp) && tmp in Temps(d.procs[p])
    ensures forall entry :: entry in Point(d, tmp).durable ==> Complete(d, entry)
    ensures forall r :: r in d.procs && d.procs[r].DirSynced? ==> Some(d.procs[r].fd) !in Point(d, tmp).durable
  {
    assert ProcOk(d, d.procs[p]);
    forall r | r in d.procs && d.procs[r].DirSynced? ensures d.procs[r].fd != tmp {
      assert Apart(d.procs[p], d.procs[r]);
    }
  }

  lemma SyncDirKeepsDurable(d: Disk, a: Action)
    requires Consistent(d) && DurablySafe(d) && Enabled(d, a) && a.SyncDir? && a.ok
    ensures DurablySafe(Step(d, a))
  {
    var d' := Step(d, a);
    assert ProcOk(d, d.procs[a.p]) && d'.durable == {d.canonical} && d'.inodes == d.inodes;
    forall r | r in d'.procs && d'.procs[r].DirSynced? ensures d.canonical != Some(d'.procs[r].fd) {
      assert r in d.procs && ProcOk(d, d.procs[r]);
    }
  }

  lemma SyncKeepsDurable(d: Disk, a: Action)
    requires Consistent(d) && DurablySafe(d) && Enabled(d, a) && a.Sync?
    ensures DurablySafe(Step(d, a))
  {
    assert ProcOk(d, d.procs[a.p]);
    match d.procs[a.p]
    case EnsureStaged(token, tmp) => FillKeepsDurable(d, tmp, Secret(token));
    case RotateStaged(token, _, _, tmp) => FillKeepsDurable(d, tmp, Secret(token));
    case BackupStaged(prior, _, copy) => FillKeepsDurable(d, copy, Secret(prior));
    case _ =>
  }

  lemma PointingKeepsDurable(d: Disk, a: Action)
    requires Consistent(d) && DurablySafe(d) && Enabled(d, a) && (a.Link? || a.Rename?)
    ensures DurablySafe(Step(d, a))
  {
    if a.Rename? || d.procs[a.p].EnsureSynced? {
      PointKeepsDurable(d, a.p, d.procs[a.p].tmp);
    }
  }

  lemma StepKeepsDurable(d: Disk, a: Action)
    requires Consistent(d) && DurablySafe(d) && Enabled(d, a) && Reliable(a)
    ensures DurablySafe(Step(d, a))
  {
    match a
    case Stage(p, inode) => FillKeepsDurable(d, inode, Partial);
    case Sync(p) => SyncKeepsDurable(d, a);
    case Link(p) => PointingKeepsDurable(d, a);
    case Rename(p) => PointingKeepsDurable(d, a);
    case SyncDir(p, ok) => SyncDirKeepsDurable(d, a);
    case Scrub(p, _) => FillKeepsDurable(d, d.procs[p].fd, Scrubbed);
    case _ =>
  }

  lemma CrashKeepsConsistent(d: Disk, a: Action)
    requires Consistent(d) && DurablySafe(d) && Enabled(d, a) && a.Crash?
    ensures Consistent(Step(d, a))
  {
  }

  /** Before any of these processes run: the file is absent or complete, and its entry is durable. */
  ghost predicate AtRest(d: Disk) {
    EntriesOk(d) && d.durable == {d.canonical} && d.saved == {d.backup} && d.procs == map[] && (d.backup.Some? ==> d.backup.value in d.kept)
  }

  lemma {:induction false} RunKeepsConsistent(d: Disk, actions: seq<Action>)
    requires Consistent(d) && Runs(d, actions)
    requires (forall a :: a in actions ==> !a.Crash?) || (DurablySafe(d) && forall a :: a in actions ==> Reliable(a))
    ensures Consistent(Run(d, actions))
    ensures DurablySafe(d) && (forall a :: a in actions ==> Reliable(a)) ==> DurablySafe(Run(d, actions))
    decreases actions
  {
    if actions != [] {
      var a, rest := actions[0], actions[1..];
      assert forall b :: b in rest ==> b in actions;
      assert a in actions;
      if a.Crash? {
        CrashKeepsConsistent(d, a);
      } else {
        StepKeepsConsistent(d, a);
      }
      if DurablySafe(d) && forall b :: b in actions ==> Reliable(b) {
        StepKeepsDurable(d, a);
      }
      RunKeepsConsistent(Step(d, a), rest);
    }
  }

  // ---------------------------------------------------------------------------------------------
  // Main results
  // ---------------------------------------------------------------------------------------------

  /**
   * Over every interleaving of creations and rotations, with power loss at any point as long as
   * directory fsyncs succeed, or with any fsync failing as long as the power stays on: the canonical
   * path, when present, names a fully written, never scrubbed inode; so does the backup.
   */
  lemma CanonicalIsAlwaysComplete(d: Disk, actions: seq<Action>)
    requires AtRest(d) && Runs(d, actions)
    requires (forall a :: a in actions ==> !a.Crash?) || (forall a :: a in actions ==> Reliable(a))
    ensures Complete(Run(d, actions), Run(d, actions).canonical)
    ensures Complete(Run(d, actions), Run(d, actions).backup)
  {
    RunKeepsConsistent(d, actions);
  }

  /** With successful directory fsyncs every entry that may survive a power loss is complete as well. */
  lemma DurableEntryIsAlwaysComplete(d: Disk, actions: seq<Action>, entry: Option<nat>)
    requires AtRest(d) && Runs(d, actions) && forall a :: a in actions ==> Reliable(a)
    requires entry in Run(d, actions).durable
    ensures Complete(Run(d, actions), entry)
  {
    RunKeepsConsistent(d, actions);
  }

  /** Only a link onto an absent path, a rename, or a power loss moves the canonical entry. */
  lemma {:induction false} OnceCreatedStays(d: Disk, actions: seq<Action>)
    requires Runs(d, actions) && d.canonical.Some? && forall a :: a in actions ==> !a.Crash?
    ensures Run(d, actions).canonical.Some?
    ensures (forall a :: a in actions ==> !a.Rename?) ==> Run(d, actions).canonical == d.canonical
    decreases actions
  {
    if actions != [] {
      assert actions[0] in actions;
      assert forall b :: b in actions[1..] ==> b in actions;
      OnceCreatedStays(Step(d, actions[0]), actions[1..]);
    }
  }

  predicate SyncsDir(a: Action) { a.SyncDir? && a.ok }

  /** Until the file exists only its creators run. */
  predicate OnlyCreators(d: Disk) {
    d.canonical.None? ==>
      forall p :: p in d.procs ==> d.procs[p].Ensuring? || d.procs[p].EnsureStaged? || d.procs[p].EnsureSynced?
  }

  lemma {:induction false} AbsenceStaysDurableIff(d: Disk, actions: seq<Action>)
    requires Runs(d, actions) && OnlyCreators(d) && forall a :: a in actions ==> !a.Crash?
    requires d.canonical.None? ==> None in d.durable
    ensures Run(d, actions).canonical.None? ==> None in Run(d, actions).durable
    ensures Run(d, actions).canonical.Some? ==>
              (None in Run(d, actions).durable <==> None in d.durable && forall a :: a in actions ==> !SyncsDir(a))
    decreases actions
  {
    if actions != [] {
      assert actions[0] in actions;
      assert forall b :: b in actions <==> b == actions[0] || b in actions[1..];
      AbsenceStaysDurableIff(Step(d, actions[0]), actions[1..]);
      if d.canonical.None? && Step(d, actions[0]).canonical.None? && Run(d, actions).canonical.Some? {
        assert !SyncsDir(actions[0]);
      }
    }
  }

  /**
   * A created file can vanish in a power loss exactly as long as no directory fsync has succeeded since:
   * creation alone makes none.
   */
  lemma CreationIsDurableIff(d: Disk, actions: seq<Action>)
    requires AtRest(d) && d.canonical.None? && Runs(d, actions) && forall a :: a in actions ==> !a.Crash?
    requires Run(d, actions).canonical.Some?
    ensures (exists copy :: Enabled(Run(d, actions), Crash(None, copy))) <==> forall a :: a in actions ==> !SyncsDir(a)
  {
    AbsenceStaysDurableIff(d, actions);
    RunKeepsConsistent(d, actions);
    var e := Run(d, actions);
    assert e.backup in e.saved;
    assert None in e.durable ==> Enabled(e, Crash(None, e.backup));
  }

  /** A durable file stays, whatever runs, whichever fsyncs fail, and however often the power is lost. */
  lemma {:induction false} OnceDurableStays(d: Disk, actions: seq<Action>)
    requires Runs(d, actions) && d.canonical.Some? && None !in d.durable
    ensures Run(d, actions).canonical.Some? && None !in Run(d, actions).durable
    decreases actions
  {
    if actions != [] {
      OnceDurableStays(Step(d, actions[0]), actions[1..]);
    }
  }

  /** A backup in place belongs to a completed rotation, was there before, or its rotation is still running. */
  ghost predicate BackupOwned(d: Disk) {
    d.backup.Some? ==>
      d.backup.value in d.kept || exists p :: p in d.procs && d.procs[p].BackupLinked? && d.procs[p].copy == d.backup.value
  }

  lemma StepKeepsBackupOwned(d: Disk, a: Action)
    requires Consistent(d) && BackupOwned(d) && Enabled(d, a) && !a.Crash?
    ensures BackupOwned(Step(d, a))
  {
    var d' := Step(d, a);
    if a.Link? && d.procs[a.p].BackupSynced? && d.backup.None? {
      assert d'.procs[a.p].BackupLinked? && d'.procs[a.p].copy == d'.backup.value;
    } else if d'.backup.Some? && d.backup.value !in d.kept {
      var p :| p in d.procs && d.procs[p].BackupLinked? && d.procs[p].copy == d.backup.value;
      if a != Rename(p) {
        StaysLinked(d, a, p);
      }
    }
  }

  lemma StaysLinked(d: Disk, a: Action, p: nat)
    requires Enabled(d, a) && p in d.procs && d.procs[p].BackupLinked? && Step(d, a).backup.Some?
    requires a != Rename(p) && !a.Crash?
    ensures p in Step(d, a).procs && Step(d, a).procs[p] == d.procs[p]
  {
  }

  lemma {:induction false} RunKeepsBackupOwned(d: Disk, actions: seq<Action>)
    requires Consistent(d) && BackupOwned(d) && Runs(d, actions) && forall a :: a in actions ==> !a.Crash?
    ensures BackupOwned(Run(d, actions)) && Consistent(Run(d, actions))
    decreases actions
  {
    if actions != [] {
      assert actions[0] in actions;
      assert forall b :: b in actions[1..] ==> b in actions;
      StepKeepsConsistent(d, actions[0]);
      StepKeepsBackupOwned(d, actions[0]);
      RunKeepsBackupOwned(Step(d, actions[0]), actions[1..]);
    }
  }

  /** Failed rotations leave no backup behind: once nobody runs, a backup is one a completed rotation kept. */
  lemma FailedRotationLeavesNoBackup(d: Disk, actions: seq<Action>)
    requires AtRest(d) && Runs(d, actions) && forall a :: a in actions ==> !a.Crash?
    requires Run(d, actions).procs == map[]
    ensures Run(d, actions).backup.Some? ==> Run(d, actions).backup.value in Run(d, actions).kept
  {
    RunKeepsBackupOwned(d, actions);
  }

  /** A failing process changes neither the canonical entry nor any other process's backup. */
  lemma FailureKeepsCanonical(d: Disk, p: nat)
    requires Consistent(d) && Enabled(d, Fail(p))
    ensures Step(d, Fail(p)).canonical == d.canonical && Step(d, Fail(p)).inodes == d.inodes
    ensures d.procs[p].BackupLinked? ==> d.backup == Some(d.procs[p].copy)
    ensures Step(d, Fail(p)).backup == if d.procs[p].BackupLinked? then None else d.backup
  {
    assert ProcOk(d, d.procs[p]);
  }

  // What a keeping rotation keeps

  /** The secret a process is going to write. */
  predicate WillWrite(q: Proc, s: nat) {
    (q.Ensuring? || q.EnsureStaged? || q.Rotating? || q.RotateStaged?) && q.token == s
  }

  ghost predicate WritesAnother(d: Disk, q: Proc, s: nat) {
    !WillWrite(q, s)
    && (Finished(q).Some? ==> Finished(q).value in d.inodes && d.inodes[Finished(q).value] != Secret(s))
  }

  /** No process holds or is going to write the secret `s` as a new one. */
  ghost predicate NotReissued(d: Disk, s: nat) {
    forall p :: p in d.procs ==> WritesAnother(d, d.procs[p], s)
  }

  predicate Reissues(a: Action, s: nat) { (a.StartEnsure? || a.StartRotate?) && a.token == s }

  lemma OthersTempsStay(d: Disk, a: Action, p: nat, i: nat)
    requires Consistent(d) && Enabled(d, a) && !a.Crash? && p in d.procs && a.p != p && i in Temps(d.procs[p])
    ensures i in Step(d, a).inodes && Step(d, a).inodes[i] == d.inodes[i]
  {
    assert ProcOk(d, d.procs[p]);
    assert a.p in d.procs ==> Apart(d.procs[a.p], d.procs[p]);
    ApartInodesStay(d, a, d.procs[p], i);
  }

  lemma ApartInodesStay(d: Disk, a: Action, r: Proc, i: nat)
    requires Enabled(d, a) && !a.Crash? && i in Temps(r) && i in d.inodes
    requires a.p in d.procs ==> Apart(d.procs[a.p], r)
    ensures i in Step(d, a).inodes && Step(d, a).inodes[i] == d.inodes[i]
  {
  }

  lemma ActorWritesAnother(d: Disk, a: Action, s: nat)
    requires Enabled(d, a) && !a.Crash? && !Reissues(a, s)
    requires a.p in d.procs ==> ProcOk(d, d.procs[a.p]) && WritesAnother(d, d.procs[a.p], s)
    requires a.p in Step(d, a).procs
    ensures WritesAnother(Step(d, a), Step(d, a).procs[a.p], s)
  {
  }

  lemma StepKeepsNotReissued(d: Disk, a: Action, s: nat)
    requires Consistent(d) && NotReissued(d, s) && Enabled(d, a) && !a.Crash? && !Reissues(a, s)
    ensures NotReissued(Step(d, a), s)
  {
    var e := Step(d, a);
    forall p | p in e.procs ensures WritesAnother(e, e.procs[p], s) {
      if p == a.p {
        ActorWritesAnother(d, a, s);
      } else {
        OthersStay(d, a, p);
        assert WritesAnother(d, d.procs[p], s);
        if Finished(d.procs[p]).Some? {
          FinishedIsTemp(d.procs[p]);
          OthersTempsStay(d, a, p, Finished(d.procs[p]).value);
        }
      }
    }
  }

  lemma OthersStay(d: Disk, a: Action, p: nat)
    requires Enabled(d, a) && !a.Crash? && a.p != p
    ensures p in Step(d, a).procs <==> p in d.procs
    ensures p in d.procs ==> Step(d, a).procs[p] == d.procs[p]
  {
  }

  lemma FinishedIsTemp(q: Proc)
    ensures Finished(q).Some? ==> Finished(q).value in Temps(q)
  {
  }

  /** Only a rename changes an existing canonical file, and it installs another secret. */
  lemma StepChangesCanonical(d: Disk, a: Action, s: nat)
    requires Consistent(d) && NotReissued(d, s) && Enabled(d, a) && !a.Crash? && d.canonical.Some?
    ensures var e := Step(d, a);
            && e.canonical.Some? && e.canonical.value in e.inodes
            && (if a.Rename? then e.inodes[e.canonical.value] != Secret(s)
                else e.inodes[e.canonical.value] == d.inodes[d.canonical.value])
  {
    if a.p in d.procs {
      assert ProcOk(d, d.procs[a.p]);
    }
  }

  lemma {:induction false} RunChangesCanonical(d: Disk, actions: seq<Action>, s: nat)
    requires Consistent(d) && NotReissued(d, s) && Runs(d, actions) && d.canonical.Some?
    requires forall a :: a in actions ==> !a.Crash? && !Reissues(a, s)
    ensures var e := Run(d, actions);
            && Consistent(e) && e.canonical.Some? && e.canonical.value in e.inodes
            && (if exists a :: a in actions && a.Rename? then e.inodes[e.canonical.value] != Secret(s)
                else e.inodes[e.canonical.value] == d.inodes[d.canonical.value])
    decreases actions
  {
    if actions != [] {
      assert actions[0] in actions;
      assert forall b :: b in actions <==> b == actions[0] || b in actions[1..];
      StepKeepsConsistent(d, actions[0]);
      StepKeepsNotReissued(d, actions[0], s);
      StepChangesCanonical(d, actions[0], s);
      RunChangesCanonical(Step(d, actions[0]), actions[1..], s);
    }
  }

  /**
   * A keeping rotation backs up the secret it loaded. When it is about to rename, the backup holds the
   * secret being replaced exactly when nobody has renamed since the load: a rotation that raced past it
   * has its own new secret replaced without a backup.
   */
  lemma BackupHoldsReplacedSecretIff(d: Disk, p: nat, token: nat, prior: nat, actions: seq<Action>)
    requires Consistent(d) && d.canonical.Some? && d.inodes[d.canonical.value] == Secret(prior)
    requires p in d.procs && d.procs[p] == Rotating(token, prior, true) && NotReissued(d, prior)
    requires Runs(d, actions) && forall a :: a in actions ==> !a.Crash? && !Reissues(a, prior)
    requires var e := Run(d, actions); p in e.procs && e.procs[p].BackupLinked? && e.procs[p].prior == prior
    ensures var e := Run(d, actions);
            && e.backup.Some? && e.backup.value in e.inodes && e.canonical.Some? && e.canonical.value in e.inodes
            && e.inodes[e.backup.value] == Secret(prior)
            && (e.inodes[e.backup.value] == e.inodes[e.canonical.value] <==> forall a :: a in actions ==> !a.Rename?)
  {
    RunChangesCanonical(d, actions, prior);
    assert ProcOk(Run(d, actions), Run(d, actions).procs[p]);
  }

  ghost predicate HoldsSecret(d: Disk, entry: Option<nat>, s: nat) {
    entry.Some? && entry.value in d.inodes && d.inodes[entry.value] == Secret(s)
  }

  /** Whatever a power loss leaves of the two entries, one of them has the secret. */
  ghost predicate SurvivesPowerLoss(d: Disk, s: nat) {
    forall entry, copy :: Enabled(d, Crash(entry, copy)) ==> HoldsSecret(d, entry, s) || HoldsSecret(d, copy, s)
  }

  /** Between its link and its rename a keeping rotation's backup is its own, and durable once the directory is. */
  lemma {:induction false} OthersLeaveBackup(d: Disk, p: nat, actions: seq<Action>)
    requires Consistent(d) && p in d.procs && d.procs[p].BackupLinked? && Runs(d, actions)
    requires forall a :: a in actions ==> !a.Crash? && a.p != p
    ensures var e, q := Run(d, actions), d.procs[p];
            && Consistent(e) && p in e.procs && e.procs[p] == q && e.backup == d.backup
            && q.tmp in e.inodes && e.inodes[q.tmp] == d.inodes[q.tmp]
            && e.saved == if exists a :: a in actions && SyncsDir(a) then {d.backup} else d.saved
    decreases actions
  {
    if actions != [] {
      assert actions[0] in actions;
      assert forall b :: b in actions <==> b == actions[0] || b in actions[1..];
      StepKeepsConsistent(d, actions[0]);
      OtherLeavesBackup(d, p, actions[0]);
      OthersLeaveBackup(Step(d, actions[0]), p, actions[1..]);
    } else {
      assert ProcOk(d, d.procs[p]);
    }
  }

  lemma OtherLeavesBackup(d: Disk, p: nat, a: Action)
    requires Consistent(d) && p in d.procs && d.procs[p].BackupLinked? && Enabled(d, a) && !a.Crash? && a.p != p
    ensures var e, q := Step(d, a), d.procs[p];
            && p in e.procs && e.procs[p] == q && e.backup == d.backup
            && q.tmp in e.inodes && e.inodes[q.tmp] == d.inodes[q.tmp]
            && e.saved == if SyncsDir(a) then {d.backup} else d.saved
  {
    OthersStay(d, a, p);
    OthersTempsStay(d, a, p, d.procs[p].tmp);
    assert ProcOk(d, d.procs[p]);
    assert a.p in d.procs ==> Apart(d.procs[p], d.procs[a.p]);
    OtherLeavesEntry(d, a);
  }

  lemma OtherLeavesEntry(d: Disk, a: Action)
    requires Enabled(d, a) && !a.Crash? && d.backup.Some? && (a.p in d.procs ==> !d.procs[a.p].BackupLinked?)
    ensures Step(d, a).backup == d.backup && Step(d, a).saved == if SyncsDir(a) then {d.backup} else d.saved
  {
  }

  /** The disk after a keeping rotation that has staged its backup links it, others act, and it finishes. */
  function AfterKeeping(d: Disk, p: nat, actions: seq<Action>, ok: bool): Disk
    requires p in d.procs && d.procs[p].BackupSynced? && d.backup.None?
    requires Runs(Step(d, Link(p)), actions)
    requires var e := Run(Step(d, Link(p)), actions); p in e.procs && e.procs[p].BackupLinked?
  {
    Step(Step(Run(Step(d, Link(p)), actions), Rename(p)), SyncDir(p, ok))
  }

  /**
   * The old secret of a completed keeping rotation survives every power loss, under one name or the
   * other, exactly when some directory fsync succeeded after the backup was linked: its own, or that of
   * another rotation in between.
   */
  lemma KeptSecretSurvivesIff(d: Disk, p: nat, actions: seq<Action>, ok: bool)
    requires Consistent(d) && p in d.procs && d.procs[p].BackupSynced? && d.backup.None?
    requires d.inodes[d.procs[p].tmp] != Secret(d.procs[p].prior)
    requires Runs(Step(d, Link(p)), actions) && forall a :: a in actions ==> !a.Crash? && a.p != p
    ensures var e := Run(Step(d, Link(p)), actions); p in e.procs && e.procs[p].BackupLinked?
    ensures SurvivesPowerLoss(AfterKeeping(d, p, actions, ok), d.procs[p].prior)
            <==> ok || exists a :: a in actions && SyncsDir(a)
  {
    var q := d.procs[p];
    var linked := Step(d, Link(p));
    StepKeepsConsistent(d, Link(p));
    assert ProcOk(d, q) && None in linked.saved;
    OthersLeaveBackup(linked, p, actions);
    FinishedKeepingSurvivesIff(Run(linked, actions), p, ok);
  }

  lemma FinishedKeepingSurvivesIff(e: Disk, p: nat, ok: bool)
    requires Consistent(e) && p in e.procs && e.procs[p].BackupLinked?
    requires e.inodes[e.procs[p].tmp] != Secret(e.procs[p].prior)
    requires e.saved == {e.backup} || None in e.saved
    ensures SurvivesPowerLoss(Step(Step(e, Rename(p)), SyncDir(p, ok)), e.procs[p].prior)
            <==> ok || e.saved == {e.backup}
  {
    assert ProcOk(e, e.procs[p]);
    FinishKeeping(e, p, ok);
    SurvivesIffSaved(Step(Step(e, Rename(p)), SyncDir(p, ok)), e.procs[p].tmp, e.procs[p].copy, e.procs[p].prior);
  }

  lemma FinishKeeping(e: Disk, p: nat, ok: bool)
    requires p in e.procs && e.procs[p].BackupLinked?
    ensures var after := Step(Step(e, Rename(p)), SyncDir(p, ok));
            && after.inodes == e.inodes && Some(e.procs[p].tmp) in after.durable
            && after.saved == if ok then {e.backup} else e.saved
  {
  }

  /** While a power loss may leave a canonical file without the secret, the backup alone decides. */
  lemma SurvivesIffSaved(d: Disk, tmp: nat, copy: nat, s: nat)
    requires Some(tmp) in d.durable && !HoldsSecret(d, Some(tmp), s) && HoldsSecret(d, Some(copy), s)
    requires d.saved == {Some(copy)} || None in d.saved
    ensures SurvivesPowerLoss(d, s) <==> d.saved == {Some(copy)}
  {
    if d.saved != {Some(copy)} {
      assert Enabled(d, Crash(Some(tmp), None)) && !HoldsSecret(d, None, s);
    }
  }

  // What an ignored directory fsync costs

  lemma {:induction false} RunSplit(d: Disk, a: seq<Action>, b: seq<Action>)
    requires Runs(d, a + b)
    ensures Runs(d, a) && Runs(Run(d, a), b) && Run(d, a + b) == Run(Run(d, a), b)
    decreases |a|
  {
    if a == [] {
      assert a + b == b;
    } else {
      assert (a + b)[0] == a[0] && (a + b)[1..] == a[1..] + b;
      RunSplit(Step(d, a[0]), a[1..], b);
    }
  }

  /** The run without its last action, and that action. */
  lemma RunSnoc(d: Disk, actions: seq<Action>)
    requires Runs(d, actions) && actions != []
    ensures var n := |actions| - 1;
            && Runs(d, actions[..n]) && Enabled(Run(d, actions[..n]), actions[n])
            && Run(d, actions) == Step(Run(d, actions[..n]), actions[n])
  {
    var n := |actions| - 1;
    assert actions == actions[..n] + [actions[n]] && [actions[n]][1..] == [];
    RunSplit(d, actions[..n], [actions[n]]);
  }

  predicate Starts(a: Action, p: nat) { (a.StartEnsure? || a.StartRotate?) && a.p == p }

  /** One process all along: it neither starts anew nor loses power. */
  predicate Undisturbed(actions: seq<Action>, p: nat) {
    forall a :: a in actions ==> !a.Crash? && !Starts(a, p)
  }

  /** A directory fsync succeeds after a rename. */
  predicate Settles(actions: seq<Action>) {
    exists i, j :: 0 <= i < j < |actions| && actions[i].Rename? && SyncsDir(actions[j])
  }

  predicate Renames(actions: seq<Action>) { exists i :: 0 <= i < |actions| && actions[i].Rename? }

  lemma SettlesSnoc(actions: seq<Action>)
    requires actions != []
    ensures var init, a := actions[..|actions| - 1], actions[|actions| - 1];
            && (Settles(actions) <==> Settles(init) || (SyncsDir(a) && Renames(init)))
            && (Renames(actions) <==> Renames(init) || a.Rename?)
  {
    var init, a := actions[..|actions| - 1], actions[|actions| - 1];
    assert forall i :: 0 <= i < |init| ==> init[i] == actions[i];
    if Settles(init) {
      var i, j :| 0 <= i < j < |init| && init[i].Rename? && SyncsDir(init[j]);
      assert actions[i].Rename? && SyncsDir(actions[j]);
    }
    if SyncsDir(a) && Renames(init) {
      var i :| 0 <= i < |init| && init[i].Rename?;
      assert actions[i].Rename? && SyncsDir(actions[|init|]);
    }
    if Renames(init) {
      var i :| 0 <= i < |init| && init[i].Rename?;
      assert actions[i].Rename?;
    }
  }

  /** While a process holds the file `fd` open, only a rename moves the entry, and never to `fd`. */
  lemma HeldIsNotRelinked(d: Disk, a: Action, p: nat, fd: nat)
    requires Consistent(d) && Enabled(d, a) && !a.Crash? && d.canonical.Some?
    requires p in d.procs && Handle(d.procs[p]) == Some(fd)
    ensures var e := Step(d, a);
            && e.canonical.Some?
            && (if a.Rename? then e.canonical != Some(fd) else e.canonical == d.canonical)
            && (Some(fd) in e.durable <==> if SyncsDir(a) then d.canonical == Some(fd) else Some(fd) in d.durable)
  {
    assert ProcOk(d, d.procs[p]);
    if a.p in d.procs {
      assert ProcOk(d, d.procs[a.p]);
      assert a.p != p ==> Apart(d.procs[a.p], d.procs[p]);
      FinishedIsTemp(d.procs[a.p]);
      PointsElsewhere(d, a, fd);
    }
  }

  lemma PointsElsewhere(d: Disk, a: Action, fd: nat)
    requires Enabled(d, a) && !a.Crash? && d.canonical.Some? && a.p in d.procs
    requires Finished(d.procs[a.p]) != Some(fd)
    ensures var e := Step(d, a);
            && e.canonical.Some?
            && (if a.Rename? then e.canonical != Some(fd) else e.canonical == d.canonical)
            && (Some(fd) in e.durable <==> if SyncsDir(a) then d.canonical == Some(fd) else Some(fd) in d.durable)
  {
  }

  lemma HandleStays(d: Disk, a: Action, p: nat)
    requires Enabled(d, a) && !a.Crash? && !Starts(a, p) && p in Step(d, a).procs
    ensures p in d.procs
    ensures Handle(d.procs[p]).Some? ==> Handle(Step(d, a).procs[p]) == Handle(d.procs[p])
    ensures Handle(d.procs[p]).None? && Handle(Step(d, a).procs[p]).Some? ==>
              a == OpenOld(p) && d.canonical == Handle(Step(d, a).procs[p])
  {
  }

  /**
   * From the moment a rotation opens the file it is going to replace, whoever else acts: a power loss may
   * bring that file back exactly until a directory fsync has succeeded after a rename, its own or anybody's.
   */
  lemma {:induction false} OldFileIsDurableIff(d: Disk, p: nat, fd: nat, actions: seq<Action>)
    requires Consistent(d) && p in d.procs && Handle(d.procs[p]) == Some(fd) && d.canonical == Some(fd)
    requires Runs(d, actions) && Undisturbed(actions, p) && p in Run(d, actions).procs
    ensures var e := Run(d, actions);
            && Consistent(e) && Handle(e.procs[p]) == Some(fd) && e.canonical.Some?
            && (e.canonical == Some(fd) <==> !Renames(actions))
            && (Some(fd) in e.durable <==> !Settles(actions))
    decreases |actions|
  {
    if actions != [] {
      var n := |actions| - 1;
      var init, a := actions[..n], actions[n];
      RunSnoc(d, actions);
      HandleStays(Run(d, init), a, p);
      OldFileIsDurableIff(d, p, fd, init);
      StepKeepsConsistent(Run(d, init), a);
      HeldIsNotRelinked(Run(d, init), a, p, fd);
      SettlesSnoc(actions);
    }
  }

  /** Some power loss leaves an unusable file at the canonical path. */
  ghost predicate PowerLossBreaks(d: Disk) {
    exists entry, copy :: Enabled(d, Crash(entry, copy)) && !Complete(Step(d, Crash(entry, copy)), entry)
  }

  ghost predicate DurableComplete(d: Disk) { forall entry :: entry in d.durable ==> Complete(d, entry) }

  lemma BreaksIffIncomplete(d: Disk)
    requires Consistent(d)
    ensures PowerLossBreaks(d) <==> !DurableComplete(d)
  {
    if entry :| entry in d.durable && !Complete(d, entry) {
      assert Enabled(d, Crash(entry, d.backup)) && !Complete(Step(d, Crash(entry, d.backup)), entry);
    }
  }

  /** A scrub that overwrites does harm exactly when a durable value of the entry is the scrubbed inode. */
  lemma ScrubIsSafeIffUnnamed(d: Disk, p: nat)
    requires Consistent(d) && Enabled(d, Scrub(p, true)) && DurableComplete(d)
    ensures DurableComplete(Step(d, Scrub(p, true))) <==> Some(d.procs[p].fd) !in d.durable
  {
    var d' := Step(d, Scrub(p, true));
    assert d'.inodes[d.procs[p].fd] == Scrubbed;
    assert !Complete(d', Some(d.procs[p].fd));
  }

  /** Nothing else makes a durable value unusable, and only a directory fsync gets rid of one. */
  lemma OtherStepsAreSafe(d: Disk, a: Action)
    requires Consistent(d) && Enabled(d, a) && !a.Crash?
    requires a.Scrub? && a.over ==> Some(d.procs[a.p].fd) !in d.durable
    ensures DurableComplete(Step(d, a)) <==> SyncsDir(a) || DurableComplete(d)
  {
    StepKeepsConsistent(d, a);
    if a.Scrub? {
      DurableContentsStay(d, Step(d, a));
    } else if a.p in d.procs {
      assert ProcOk(d, d.procs[a.p]);
      OtherStepsKeepContents(d, a);
    }
  }

  lemma OtherStepsKeepContents(d: Disk, a: Action)
    requires EntriesOk(d) && Enabled(d, a) && !a.Crash? && !a.Scrub? && a.p in d.procs && ProcOk(d, d.procs[a.p])
    requires EntriesOk(Step(d, a))
    ensures DurableComplete(Step(d, a)) <==> SyncsDir(a) || DurableComplete(d)
  {
    var e := Step(d, a);
    if SyncsDir(a) {
      assert e.durable == {e.canonical};
    } else {
      assert forall entry :: entry in e.durable ==> entry in d.durable || entry == e.canonical;
      DurableContentsStay(d, e);
    }
  }

  lemma DurableContentsStay(d: Disk, e: Disk)
    requires EntriesOk(d) && d.durable <= e.durable && Complete(e, e.canonical)
    requires forall i :: Some(i) in d.durable ==> i in e.inodes && e.inodes[i] == d.inodes[i]
    requires forall entry :: entry in e.durable ==> entry in d.durable || entry == e.canonical
    ensures DurableComplete(e) <==> DurableComplete(d)
  {
    forall entry | entry in d.durable ensures Complete(e, entry) <==> Complete(d, entry) {
    }
  }

  /** From step `i` on and before step `j`, a directory fsync succeeds after a rename. */
  predicate SettledBetween(actions: seq<Action>, i: nat, j: nat)
    requires j <= |actions|
  {
    exists r, t :: i <= r < t < j && actions[r].Rename? && SyncsDir(actions[t])
  }

  lemma SettlesSlice(actions: seq<Action>, i: nat, j: nat)
    requires i <= j <= |actions|
    ensures Settles(actions[i..j]) <==> SettledBetween(actions, i, j)
    ensures Renames(actions[i..j]) <==> exists r :: i <= r < j && actions[r].Rename?
  {
    var slice := actions[i..j];
    assert forall k :: i <= k < j ==> actions[k] == slice[k - i];
    if r, t :| i <= r < t < j && actions[r].Rename? && SyncsDir(actions[t]) {
      assert slice[r - i].Rename? && SyncsDir(slice[t - i]);
    }
    if r :| i <= r < j && actions[r].Rename? {
      assert slice[r - i].Rename?;
    }
  }

  /**
   * A rotation opens the old file at step `o` and overwrites it at step `k`, and from its opening on no
   * directory fsync succeeds after a rename.
   */
  predicate UnsyncedScrub(actions: seq<Action>, p: nat, o: nat, k: nat) {
    && o < k < |actions| && actions[o] == OpenOld(p) && actions[k] == Scrub(p, true)
    && Undisturbed(actions[o + 1..k], p)
    && !SettledBetween(actions, o + 1, |actions|)
  }

  /** A process that holds a file open has opened it in this run, when it was the canonical one. */
  lemma {:induction false} HeldWasOpened(d: Disk, actions: seq<Action>, p: nat) returns (o: nat)
    requires Runs(d, actions) && p !in d.procs && forall a :: a in actions ==> !a.Crash?
    requires p in Run(d, actions).procs && Handle(Run(d, actions).procs[p]).Some?
    ensures o < |actions| && actions[o] == OpenOld(p) && Undisturbed(actions[o + 1..], p)
    ensures Runs(d, actions[..o + 1])
    ensures var s := Run(d, actions[..o + 1]);
            p in s.procs && Handle(s.procs[p]) == Handle(Run(d, actions).procs[p]) == s.canonical
    decreases |actions|
  {
    var n := |actions| - 1;
    var init, a := actions[..n], actions[n];
    RunSnoc(d, actions);
    HandleStays(Run(d, init), a, p);
    if Handle(Run(d, init).procs[p]).None? {
      o := n;
      assert actions[..o + 1] == actions && actions[o + 1..] == [];
    } else {
      o := HeldWasOpened(d, init, p);
      assert actions[..o + 1] == init[..o + 1] && actions[o + 1..] == init[o + 1..] + [a];
    }
  }

  /** The run up to a rotation's opening of the old file, and on from there. */
  lemma RunAtOpening(d: Disk, actions: seq<Action>, p: nat, o: nat)
    requires Consistent(d) && Runs(d, actions) && forall a :: a in actions ==> !a.Crash?
    requires o < |actions| && actions[o] == OpenOld(p)
    ensures Runs(d, actions[..o + 1])
    ensures var s := Run(d, actions[..o + 1]);
            && Consistent(s) && p in s.procs && s.canonical.Some? && Handle(s.procs[p]) == s.canonical
            && Runs(s, actions[o + 1..]) && Run(s, actions[o + 1..]) == Run(d, actions)
  {
    var head := actions[..o + 1];
    assert actions == head + actions[o + 1..];
    RunSplit(d, head, actions[o + 1..]);
    RunSnoc(d, head);
    assert forall a :: a in head ==> a in actions;
    RunKeepsConsistent(d, head);
  }

  /** When a rotation overwrites the old file, which it opened at step `o`. */
  lemma ScrubMeetsOldFile(d: Disk, actions: seq<Action>, p: nat, o: nat, k: nat)
    requires Consistent(d) && Runs(d, actions) && forall a :: a in actions ==> !a.Crash?
    requires o < k < |actions| && actions[o] == OpenOld(p) && actions[k].Scrub? && actions[k].p == p
    requires Undisturbed(actions[o + 1..k], p)
    ensures Runs(d, actions[..k]) && Enabled(Run(d, actions[..k]), actions[k])
    ensures Some(Run(d, actions[..k]).procs[p].fd) in Run(d, actions[..k]).durable <==> !SettledBetween(actions, o + 1, k)
    ensures exists r :: o + 1 <= r < k && actions[r].Rename?
  {
    assert actions == actions[..k] + actions[k..];
    RunSplit(d, actions[..k], actions[k..]);
    OpenedIsScrubbed(d, actions[..k], p, o);
    assert actions[..k][o + 1..] == actions[o + 1..k];
    SettlesSlice(actions, o + 1, k);
  }

  lemma OpenedIsScrubbed(d: Disk, actions: seq<Action>, p: nat, o: nat)
    requires Consistent(d) && Runs(d, actions) && forall a :: a in actions ==> !a.Crash?
    requires o < |actions| && actions[o] == OpenOld(p) && Undisturbed(actions[o + 1..], p)
    requires Enabled(Run(d, actions), Scrub(p, true))
    ensures Some(Run(d, actions).procs[p].fd) in Run(d, actions).durable <==> !Settles(actions[o + 1..])
    ensures Renames(actions[o + 1..])
  {
    RunAtOpening(d, actions, p, o);
    var s := Run(d, actions[..o + 1]);
    OldFileIsDurableIff(s, p, s.canonical.value, actions[o + 1..]);
    assert ProcOk(Run(d, actions), Run(d, actions).procs[p]);
  }

  /** Whether a run that leaves nothing unusable behind, so far, is continued by a scrub that does. */
  lemma {:induction false} RunBreaksIff(d: Disk, actions: seq<Action>)
    requires Consistent(d) && DurableComplete(d) && Runs(d, actions) && forall a :: a in actions ==> !a.Crash?
    ensures Consistent(Run(d, actions))
    ensures DurableComplete(Run(d, actions)) <==> forall k: nat :: !HarmfulAt(d, actions, k)
    decreases |actions|
  {
    if actions != [] {
      var n := |actions| - 1;
      var init, a := actions[..n], actions[n];
      RunSnoc(d, actions);
      assert forall b :: b in init ==> b in actions;
      assert a in actions;
      RunBreaksIff(d, init);
      StepKeepsConsistent(Run(d, init), a);
      HarmfulSnoc(d, actions);
      if a.Scrub? && a.over && Some(Run(d, init).procs[a.p].fd) in Run(d, init).durable {
        assert !Complete(Run(d, actions), Some(Run(d, init).procs[a.p].fd));
        assert HarmfulAt(d, actions, n);
      } else {
        OtherStepsAreSafe(Run(d, init), a);
      }
    }
  }

  /** Step `k` overwrites a file that a power loss may bring back, and no directory fsync succeeds after it. */
  ghost predicate HarmfulAt(d: Disk, actions: seq<Action>, k: nat) {
    && k < |actions| && Runs(d, actions[..k]) && Enabled(Run(d, actions[..k]), actions[k])
    && actions[k].Scrub? && actions[k].over
    && Some(Run(d, actions[..k]).procs[actions[k].p].fd) in Run(d, actions[..k]).durable
    && forall j :: k < j < |actions| ==> !SyncsDir(actions[j])
  }

  lemma HarmfulSnoc(d: Disk, actions: seq<Action>)
    requires actions != []
    ensures var n := |actions| - 1;
            forall k :: 0 <= k < n ==>
              (HarmfulAt(d, actions, k) <==> HarmfulAt(d, actions[..n], k) && !SyncsDir(actions[n]))
    ensures forall k: nat :: HarmfulAt(d, actions, k) ==> k < |actions|
  {
    var n := |actions| - 1;
    var init := actions[..n];
    forall k | 0 <= k < n
      ensures HarmfulAt(d, actions, k) <==> HarmfulAt(d, init, k) && !SyncsDir(actions[n])
    {
      assert init[..k] == actions[..k] && init[k] == actions[k];
      assert forall j :: k < j < n ==> init[j] == actions[j];
    }
  }

  /**
   * Exactly when the canonical path can be found unusable after a power loss. From rest, over every run of
   * creations and rotations with any fsync failing: some rotation has overwritten the file it opened, and
   * from its opening on no directory fsync has succeeded after a rename.
   */
  lemma PowerLossBreaksIff(d: Disk, actions: seq<Action>)
    requires AtRest(d) && Runs(d, actions) && forall a :: a in actions ==> !a.Crash?
    ensures PowerLossBreaks(Run(d, actions)) <==> exists p: nat, o: nat, k: nat :: UnsyncedScrub(actions, p, o, k)
  {
    RunBreaksIff(d, actions);
    BreaksIffIncomplete(Run(d, actions));
    if k: nat :| HarmfulAt(d, actions, k) {
      HarmfulIsUnsynced(d, actions, k);
    }
    if p: nat, o: nat, k: nat :| UnsyncedScrub(actions, p, o, k) {
      UnsyncedIsHarmful(d, actions, p, o, k);
    }
  }

  lemma HarmfulIsUnsynced(d: Disk, actions: seq<Action>, k: nat)
    requires AtRest(d) && Runs(d, actions) && (forall a :: a in actions ==> !a.Crash?) && HarmfulAt(d, actions, k)
    ensures exists p: nat, o: nat :: UnsyncedScrub(actions, p, o, k)
  {
    var p := actions[k].p;
    assert forall a :: a in actions[..k] ==> a in actions;
    var o := HeldWasOpened(d, actions[..k], p);
    assert actions[..k][o + 1..] == actions[o + 1..k];
    ScrubMeetsOldFile(d, actions, p, o, k);
    assert UnsyncedScrub(actions, p, o, k);
  }

  lemma UnsyncedIsHarmful(d: Disk, actions: seq<Action>, p: nat, o: nat, k: nat)
    requires AtRest(d) && Runs(d, actions) && (forall a :: a in actions ==> !a.Crash?) && UnsyncedScrub(actions, p, o, k)
    ensures HarmfulAt(d, actions, k)
  {
    ScrubMeetsOldFile(d, actions, p, o, k);
  }

  /** One rotation whose directory fsync fails. */
  function UnsyncedRotation(p: nat, token: nat, inode: nat): seq<Action> {
    [StartRotate(p, token, false), Stage(p, inode), Sync(p), OpenOld(p), Rename(p), SyncDir(p, false), Scrub(p, true)]
  }

  lemma RunsCons(d: Disk, a: Action, rest: seq<Action>)
    requires Enabled(d, a) && Runs(Step(d, a), rest)
    ensures Runs(d, [a] + rest)
  {
    assert ([a] + rest)[1..] == rest;
  }

  lemma UnsyncedRotationRuns(d: Disk, p: nat, token: nat, inode: nat)
    requires d.procs == map[] && d.canonical.Some? && Complete(d, d.canonical) && inode !in d.inodes
    ensures Runs(d, UnsyncedRotation(p, token, inode))
  {
    var d1 := Step(d, StartRotate(p, token, false));
    var d2 := Step(d1, Stage(p, inode));
    var d3 := Step(d2, Sync(p));
    var d4 := Step(d3, OpenOld(p));
    var d5 := Step(d4, Rename(p));
    RenamedRuns(d5, p);
    RunsCons(d4, Rename(p), [SyncDir(p, false), Scrub(p, true)]);
    RunsCons(d3, OpenOld(p), [Rename(p), SyncDir(p, false), Scrub(p, true)]);
    RunsCons(d2, Sync(p), [OpenOld(p), Rename(p), SyncDir(p, false), Scrub(p, true)]);
    RunsCons(d1, Stage(p, inode), [Sync(p), OpenOld(p), Rename(p), SyncDir(p, false), Scrub(p, true)]);
    RunsCons(d, StartRotate(p, token, false),
             [Stage(p, inode), Sync(p), OpenOld(p), Rename(p), SyncDir(p, false), Scrub(p, true)]);
  }

  lemma RenamedRuns(d: Disk, p: nat)
    requires p in d.procs && d.procs[p].Replaced? && d.procs[p].handle.Some?
    ensures Runs(d, [SyncDir(p, false), Scrub(p, true)])
  {
    RunsCons(Step(d, SyncDir(p, false)), Scrub(p, true), []);
    RunsCons(d, SyncDir(p, false), [Scrub(p, true)] + []);
  }

  /** When its directory fsync fails silently, a power loss after any rotation can leave an overwritten file. */
  lemma UnsyncedScrubCanSurface(d: Disk, p: nat, token: nat, inode: nat)
    requires AtRest(d) && d.canonical.Some? && inode !in d.inodes
    ensures Runs(d, UnsyncedRotation(p, token, inode))
    ensures PowerLossBreaks(Run(d, UnsyncedRotation(p, token, inode)))
  {
    var actions := UnsyncedRotation(p, token, inode);
    UnsyncedRotationRuns(d, p, token, inode);
    assert actions[4..6] == [Rename(p), SyncDir(p, false)];
    assert UnsyncedScrub(actions, p, 3, 6);
    PowerLossBreaksIff(d, actions);
  }
}
