/** What a rotation guarantees, whenever and however it ends. */
module RotationTheorems {
  import opened KeyMaterials
  import opened Rotation

  /** The rows of `after` open under `key` to the plaintexts that those of
      `before` open to under `oldKey`. */
  ghost predicate SameSecrets(before: Rows, oldKey: string, after: Rows, key: string) {
    && after.Keys == before.Keys
    && forall id :: id in before ==> Opens(key, after[id]) && Open(key, after[id]) == Open(oldKey, before[id])
  }

  /** Some file a salt may be kept in holds `salt`. */
  predicate SaltKept(d: Disk, salt: string) {
    exists f :: f in {SALT, PREVIOUS, NEW} && f in d.files && d.files[f] == salt
  }

  lemma RewrapAllKeepsSecrets(rows: Rows, newKey: string, oldKey: string, draw: string -> Fresh)
    requires AllOpen(oldKey, rows) && forall id :: id in rows ==> |draw(id).salt| == SALT_LENGTH
    ensures SameSecrets(rows, oldKey, RewrapAll(rows, newKey, oldKey, draw), newKey)
  {
  }

  /** A finished rotation re-wraps every row and touches nothing else in it,
      empties sessions and tokens, and leaves disk and memory consistent under
      the new passphrase: a restart with it derives the very keys in memory. */
  lemma FinishedRotation(kdf: Kdf, d: Disk, m: Memory, passphrase: string, q: Request, fault: Fault)
    requires Consistent(kdf, d, m, passphrase) && ValidRequest(q) && q.newPassphrase != ""
    requires fault.stage.Finished?
    ensures
      var d', m' := DiskAfter(kdf, d, m, q, fault), MemoryAfter(kdf, d, m, q, fault);
      && Rewrapped(d.rows, d'.rows, m.keys.streamKeyKek, m'.keys.streamKeyKek, q.draw)
      && SameSecrets(d.rows, m.keys.streamKeyKek, d'.rows, m'.keys.streamKeyKek)
      && |d'.rows| == |d.rows| && d'.sessions == {} && d'.tokens == {}
      && Consistent(kdf, d', m', q.newPassphrase)
      && m' == Restart(kdf, d', q.newPassphrase)
      && d'.files == (d.files - {PREVIOUS_TMP, NEW_TMP, NEW})[PREVIOUS := m.salt][SALT := q.newSalt]
  {
    var d' := DiskAfter(kdf, d, m, q, fault);
    var newKey := kdf(q.newPassphrase, q.newSalt).streamKeyKek;
    FinishedFiles(d.files, q.newSalt);
    assert d'.rows == RewrapAll(d.rows, newKey, m.keys.streamKeyKek, q.draw);
    RewrapAllRewraps(d.rows, newKey, m.keys.streamKeyKek, q.draw);
    RewrapAllKeepsSecrets(d.rows, newKey, m.keys.streamKeyKek, q.draw);
    SameSecretsOpen(d.rows, m.keys.streamKeyKek, d'.rows, newKey);
  }

  lemma FinishedFiles(files: map<File, string>, newSalt: string)
    requires SALT in files
    ensures
      var f := FilesAt(files, newSalt, Finished);
      f == (files - {PREVIOUS_TMP, NEW_TMP, NEW})[PREVIOUS := files[SALT]][SALT := newSalt]
  {
  }

  /** The draws for the rows are new: no nonce or salt is one that a row holds,
      and no two rows are given the same. */
  ghost predicate NewDraws(rows: Rows, draw: string -> Fresh) {
    && (forall id, other :: id in rows && other in rows ==>
          draw(id).nonce != rows[other].nonce && draw(id).salt != rows[other].salt)
    && (forall id, other :: id in rows && other in rows && id != other ==>
          draw(id).nonce != draw(other).nonce && draw(id).salt != draw(other).salt)
  }

  /** With new draws, after a finished rotation no row has a nonce or a salt that
      any row had before it, no two rows share one, and each ciphertext is sealed
      with the nonce and the salt its row holds. */
  lemma NoNonceIsReused(kdf: Kdf, d: Disk, m: Memory, passphrase: string, q: Request, fault: Fault)
    requires Consistent(kdf, d, m, passphrase) && ValidRequest(q) && q.newPassphrase != ""
    requires fault.stage.Finished? && NewDraws(d.rows, q.draw)
    ensures
      var after := DiskAfter(kdf, d, m, q, fault).rows;
      && (forall id, other :: id in after && other in d.rows ==>
            after[id].nonce != d.rows[other].nonce && after[id].salt != d.rows[other].salt)
      && (forall id, other :: id in after && other in after && id != other ==>
            after[id].nonce != after[other].nonce && after[id].salt != after[other].salt)
      && (forall id :: id in after ==>
            && after[id].ciphertext.Sealed? && after[id].ciphertext.nonce == after[id].nonce
            && after[id].ciphertext.aad == "credential:stream_key:v1" + after[id].salt)
  {
    hide DiskAfter, MemoryAfter, Consistent, Open;
    FinishedRotation(kdf, d, m, passphrase, q, fault);
  }

  lemma SameSecretsOpen(before: Rows, oldKey: string, after: Rows, key: string)
    requires SameSecrets(before, oldKey, after, key)
    ensures AllOpen(key, after) && |after| == |before|
  {
    assert |after| == |after.Keys| && |before| == |before.Keys|;
  }

  /** One row that does not open under the old key undoes everything: rows,
      sessions, tokens, the salt file and the keys in memory are as before, and
      the staged salt is gone. */
  lemma UnreadableRowRollsBack(kdf: Kdf, d: Disk, m: Memory, q: Request, fault: Fault)
    requires SALT in d.files && ValidRequest(q) && !AllOpen(m.keys.streamKeyKek, d.rows)
    requires Index(fault.stage) > 4
    ensures
      var d' := DiskAfter(kdf, d, m, q, fault);
      && d'.rows == d.rows && d'.sessions == d.sessions && d'.tokens == d.tokens
      && d'.files == (d.files - {PREVIOUS_TMP, NEW_TMP, NEW})[PREVIOUS := d.files[SALT]]
      && MemoryAfter(kdf, d, m, q, fault) == m
  {
  }

  /** An exception up to the commit changes neither rows, sessions, tokens, the
      salt in force nor the keys, and the state is consistent as before. */
  lemma ExceptionBeforeCommit(kdf: Kdf, d: Disk, m: Memory, passphrase: string, q: Request, fault: Fault)
    requires Consistent(kdf, d, m, passphrase) && ValidRequest(q)
    requires fault.Raise? && Index(fault.stage) <= 4
    ensures
      var d' := DiskAfter(kdf, d, m, q, fault);
      && d'.rows == d.rows && d'.sessions == d.sessions && d'.tokens == d.tokens
      && d'.files[SALT] == d.files[SALT] && MemoryAfter(kdf, d, m, q, fault) == m
      && Consistent(kdf, d', m, passphrase)
  {
  }

  /** Nothing is lost: all rows still open, to their plaintexts, under one key,
      derived from the old passphrase and salt or from the new ones, and that
      salt is still in one of the three salt files. */
  ghost predicate Recoverable(kdf: Kdf, d: Disk, m: Memory, passphrase: string, q: Request, after: Disk) {
    var oldKey := m.keys.streamKeyKek;
    || (SameSecrets(d.rows, oldKey, after.rows, kdf(passphrase, m.salt).streamKeyKek) && SaltKept(after, m.salt))
    || (SameSecrets(d.rows, oldKey, after.rows, kdf(q.newPassphrase, q.newSalt).streamKeyKek)
        && SaltKept(after, q.newSalt))
  }

  /** Wherever the process dies, and wherever an exception ends the rotation
      except at the rename of the salt file, the secrets stay recoverable. */
  lemma CrashIsRecoverable(kdf: Kdf, d: Disk, m: Memory, passphrase: string, q: Request, fault: Fault)
    requires Consistent(kdf, d, m, passphrase) && ValidRequest(q)
    requires fault != Raise(RenameSalt)
    ensures Recoverable(kdf, d, m, passphrase, q, DiskAfter(kdf, d, m, q, fault))
  {
    var after := DiskAfter(kdf, d, m, q, fault);
    if Index(fault.stage) <= 4 {
      assert after.files[SALT] == m.salt;
    } else {
      RewrapAllKeepsSecrets(d.rows, kdf(q.newPassphrase, q.newSalt).streamKeyKek, m.keys.streamKeyKek, q.draw);
      var f := if Index(fault.stage) == 5 then NEW else SALT;
      assert after.files[f] == q.newSalt;
    }
  }

  /** The new keys and salt really are new, and there is something to lose. */
  ghost predicate Distinct(kdf: Kdf, d: Disk, m: Memory, q: Request) {
    && d.rows != map[]
    && kdf(q.newPassphrase, q.newSalt).streamKeyKek != m.keys.streamKeyKek
    && q.newSalt != m.salt
  }

  lemma OneKeyOpens(rows: Rows, key: string, other: string)
    requires rows != map[] && AllOpen(key, rows) && AllOpen(other, rows)
    ensures key == other
  {
    var id :| id in rows;
    assert Opens(key, rows[id]) && Opens(other, rows[id]);
  }

  /** What a rename that raises leaves on disk: the rows are re-wrapped, and no
      salt file holds the new salt, since the handler has unlinked it. */
  lemma RenameFailureLeaves(kdf: Kdf, d: Disk, m: Memory, passphrase: string, q: Request)
    requires Consistent(kdf, d, m, passphrase) && ValidRequest(q) && q.newSalt != m.salt
    ensures
      var after := DiskAfter(kdf, d, m, q, Raise(RenameSalt));
      && SALT in after.files && after.files[SALT] == m.salt && !SaltKept(after, q.newSalt)
      && SameSecrets(d.rows, m.keys.streamKeyKek, after.rows, kdf(q.newPassphrase, q.newSalt).streamKeyKek)
  {
    var after := DiskAfter(kdf, d, m, q, Raise(RenameSalt));
    RewrapAllKeepsSecrets(d.rows, kdf(q.newPassphrase, q.newSalt).streamKeyKek, m.keys.streamKeyKek, q.draw);
    RenameFailureFiles(d.files, q.newSalt);
    assert after.files == FilesAt(d.files, q.newSalt, RenameSalt) - {NEW};
  }

  lemma RenameFailureFiles(files: map<File, string>, newSalt: string)
    requires SALT in files
    ensures
      var f := FilesAt(files, newSalt, RenameSalt) - {NEW};
      NEW !in f && SALT in f && f[SALT] == files[SALT] && PREVIOUS in f && f[PREVIOUS] == files[SALT]
  {
  }

  lemma RewrappedNeedsNewKey(before: Rows, oldKey: string, after: Rows, key: string, newKey: string)
    requires before != map[] && SameSecrets(before, oldKey, after, newKey) && SameSecrets(before, oldKey, after, key)
    ensures key == newKey
  {
    var id :| id in before;
    assert Opens(key, after[id]) && Opens(newKey, after[id]);
  }

  /** A rename that raises is exactly the case in which the three salt files no
      longer suffice: the only one that held the new salt is gone. (The source
      writes both salts to its log for that case.) */
  lemma RenameFailureLosesTheSalt(kdf: Kdf, d: Disk, m: Memory, passphrase: string, q: Request, fault: Fault)
    requires Consistent(kdf, d, m, passphrase) && ValidRequest(q) && Distinct(kdf, d, m, q)
    ensures Recoverable(kdf, d, m, passphrase, q, DiskAfter(kdf, d, m, q, fault)) <==> fault != Raise(RenameSalt)
  {
    hide DiskAfter, SameSecrets, SaltKept;
    if fault != Raise(RenameSalt) {
      CrashIsRecoverable(kdf, d, m, passphrase, q, fault);
    } else {
      var after := DiskAfter(kdf, d, m, q, fault);
      var oldKey, newKey := m.keys.streamKeyKek, kdf(q.newPassphrase, q.newSalt).streamKeyKek;
      RenameFailureLeaves(kdf, d, m, passphrase, q);
      if SameSecrets(d.rows, oldKey, after.rows, oldKey) {
        RewrappedNeedsNewKey(d.rows, oldKey, after.rows, oldKey, newKey);
      }
    }
  }

  /** The passphrase a restart is due after a rotation that ended at `stage`. */
  function DuePassphrase(passphrase: string, q: Request, stage: Stage): string {
    if Index(stage) <= 4 then passphrase else q.newPassphrase
  }

  /** However the rotation ended, a restart with the old passphrase (before the
      commit) or the new one (after it) reads every row, except when the salt
      file was not renamed after the commit, by a death or by an exception: then
      it still holds the old salt, and the new passphrase derives other keys. */
  lemma RestartReadsUnlessBetween(kdf: Kdf, d: Disk, m: Memory, passphrase: string, q: Request, fault: Fault)
    requires Consistent(kdf, d, m, passphrase) && ValidRequest(q) && Distinct(kdf, d, m, q)
    requires kdf(q.newPassphrase, m.salt).streamKeyKek != kdf(q.newPassphrase, q.newSalt).streamKeyKek
    ensures
      var after := DiskAfter(kdf, d, m, q, fault);
      && SALT in after.files
      && (AllOpen(Restart(kdf, after, DuePassphrase(passphrase, q, fault.stage)).keys.streamKeyKek, after.rows)
          <==> !fault.stage.RenameSalt?)
  {
    var after := DiskAfter(kdf, d, m, q, fault);
    if Index(fault.stage) > 4 {
      AfterCommit(kdf, d, m, passphrase, q, fault);
      var newKey := kdf(q.newPassphrase, q.newSalt).streamKeyKek;
      if fault.stage.RenameSalt? && AllOpen(Restart(kdf, after, q.newPassphrase).keys.streamKeyKek, after.rows) {
        OneKeyOpens(after.rows, Restart(kdf, after, q.newPassphrase).keys.streamKeyKek, newKey);
      }
    } else {
      BeforeCommit(kdf, d, m, passphrase, q, fault);
    }
  }

  /** What is on disk after a rotation that ended behind the commit. */
  lemma AfterCommit(kdf: Kdf, d: Disk, m: Memory, passphrase: string, q: Request, fault: Fault)
    requires Consistent(kdf, d, m, passphrase) && ValidRequest(q) && Index(fault.stage) > 4
    ensures
      var after := DiskAfter(kdf, d, m, q, fault);
      && SameSecrets(d.rows, m.keys.streamKeyKek, after.rows, kdf(q.newPassphrase, q.newSalt).streamKeyKek)
      && AllOpen(kdf(q.newPassphrase, q.newSalt).streamKeyKek, after.rows) && (d.rows != map[] ==> after.rows != map[])
      && SALT in after.files && after.files[SALT] == (if fault.stage.RenameSalt? then m.salt else q.newSalt)
  {
    hide DiskAfter, RewrapAll;
    var newKey := kdf(q.newPassphrase, q.newSalt).streamKeyKek;
    var after := DiskAfter(kdf, d, m, q, fault);
    CommittedShape(kdf, d, m, q, fault);
    RewrapAllKeepsSecrets(d.rows, newKey, m.keys.streamKeyKek, q.draw);
    SameSecretsOpen(d.rows, m.keys.streamKeyKek, after.rows, newKey);
  }

  lemma CommittedShape(kdf: Kdf, d: Disk, m: Memory, q: Request, fault: Fault)
    requires SALT in d.files && ValidRequest(q) && AllOpen(m.keys.streamKeyKek, d.rows) && Index(fault.stage) > 4
    ensures
      var after := DiskAfter(kdf, d, m, q, fault);
      && after.rows == RewrapAll(d.rows, kdf(q.newPassphrase, q.newSalt).streamKeyKek, m.keys.streamKeyKek, q.draw)
      && SALT in after.files && after.files[SALT] == (if fault.stage.RenameSalt? then d.files[SALT] else q.newSalt)
  {
    hide RewrapAll;
  }

  lemma BeforeCommit(kdf: Kdf, d: Disk, m: Memory, passphrase: string, q: Request, fault: Fault)
    requires Consistent(kdf, d, m, passphrase) && ValidRequest(q) && Index(fault.stage) <= 4
    ensures
      var after := DiskAfter(kdf, d, m, q, fault);
      && after.rows == d.rows && SALT in after.files && after.files[SALT] == m.salt
      && MemoryAfter(kdf, d, m, q, fault) == m
  {
  }

  /** What a death between the commit and the rename leaves on disk. */
  lemma OrphanedRows(kdf: Kdf, d: Disk, m: Memory, passphrase: string, q: Request)
    requires Consistent(kdf, d, m, passphrase) && ValidRequest(q) && Distinct(kdf, d, m, q)
    ensures
      var orphaned := DiskAfter(kdf, d, m, q, Die(RenameSalt));
      && SALT in orphaned.files && orphaned.files[SALT] == m.salt
      && NEW in orphaned.files && orphaned.files[NEW] == q.newSalt
      && !AllOpen(m.keys.streamKeyKek, orphaned.rows)
  {
    var orphaned := DiskAfter(kdf, d, m, q, Die(RenameSalt));
    AfterCommit(kdf, d, m, passphrase, q, Die(RenameSalt));
    if AllOpen(m.keys.streamKeyKek, orphaned.rows) {
      OneKeyOpens(orphaned.rows, m.keys.streamKeyKek, kdf(q.newPassphrase, q.newSalt).streamKeyKek);
    }
  }

  /** Trying to rotate again after such a death, ending wherever it may, keeps
      the only copy of the first new salt if and only if it ends before its own
      staging has replaced the file that holds it. A rotation that gets further
      loses it, as no row opens under the keys in force and none is written. */
  lemma SecondRotationKeepsSaltIff(kdf: Kdf, d: Disk, m: Memory, passphrase: string, q: Request,
                                   again: Request, fault: Fault)
    requires Consistent(kdf, d, m, passphrase) && ValidRequest(q) && ValidRequest(again) && Distinct(kdf, d, m, q)
    requires again.newSalt != q.newSalt
    ensures
      var orphaned := DiskAfter(kdf, d, m, q, Die(RenameSalt));
      SALT in orphaned.files &&
      var m' := Restart(kdf, orphaned, passphrase);
      var after := DiskAfter(kdf, orphaned, m', again, fault);
      && (SaltKept(after, q.newSalt) <==> Index(fault.stage) <= 3)
      && after.rows == orphaned.rows
  {
    var orphaned := DiskAfter(kdf, d, m, q, Die(RenameSalt));
    OrphanedRows(kdf, d, m, passphrase, q);
    var m' := Restart(kdf, orphaned, passphrase);
    assert !AllOpen(m'.keys.streamKeyKek, orphaned.rows);
    StagingOverwrites(kdf, orphaned, m', again, fault, q.newSalt);
  }

  lemma StagingOverwrites(kdf: Kdf, d: Disk, m: Memory, q: Request, fault: Fault, salt: string)
    requires SALT in d.files && ValidRequest(q) && !AllOpen(m.keys.streamKeyKek, d.rows)
    requires NEW in d.files && d.files[NEW] == salt && d.files[SALT] != salt && q.newSalt != salt
    ensures
      var after := DiskAfter(kdf, d, m, q, fault);
      (SaltKept(after, salt) <==> Index(fault.stage) <= 3) && after.rows == d.rows
  {
    var after := DiskAfter(kdf, d, m, q, fault);
    if Index(fault.stage) <= 3 {
      assert NEW in after.files && after.files[NEW] == salt;
    } else {
      assert PREVIOUS in after.files && after.files[PREVIOUS] == d.files[SALT] && after.files[SALT] == d.files[SALT];
    }
  }

  // ---------------------------------------------------------------------
  // Any number of rotations
  // ---------------------------------------------------------------------

  /** A rotation that does not get stuck between commit and rename: it finishes,
      is ended by an exception before the commit, or the process dies and is
      restarted with the passphrase then due. */
  predicate Survivable(fault: Fault) {
    match fault
    case Raise(stage) => stage.Finished? || Index(stage) <= 4
    case Die(stage) => !stage.RenameSalt?
  }

  /** The keys in memory after it, and after the restart if the process died. */
  function MemoryNext(kdf: Kdf, d: Disk, m: Memory, passphrase: string, q: Request, fault: Fault): Memory
    requires SALT in d.files && forall id :: id in d.rows ==> |q.draw(id).salt| == SALT_LENGTH
  {
    var after := DiskAfter(kdf, d, m, q, fault);
    if fault.Die? && SALT in after.files then Restart(kdf, after, DuePassphrase(passphrase, q, fault.stage))
    else MemoryAfter(kdf, d, m, q, fault)
  }

  lemma SurvivableKeepsSecrets(kdf: Kdf, d: Disk, m: Memory, passphrase: string, q: Request, fault: Fault)
    requires Consistent(kdf, d, m, passphrase) && ValidRequest(q) && q.newPassphrase != "" && Survivable(fault)
    ensures
      var d', m' := DiskAfter(kdf, d, m, q, fault), MemoryNext(kdf, d, m, passphrase, q, fault);
      && Consistent(kdf, d', m', DuePassphrase(passphrase, q, fault.stage))
      && SameSecrets(d.rows, m.keys.streamKeyKek, d'.rows, m'.keys.streamKeyKek)
  {
    hide DiskAfter, MemoryAfter;
    if Index(fault.stage) <= 4 {
      BeforeCommit(kdf, d, m, passphrase, q, fault);
    } else {
      AfterCommit(kdf, d, m, passphrase, q, fault);
      if fault.Raise? {
        FinishedRotation(kdf, d, m, passphrase, q, fault);
      }
    }
  }

  /** Any number of survivable rotations, one after the other, from a state that
      `passphrase` unlocks. */
  ghost predicate Chain(kdf: Kdf, d: Disk, m: Memory, passphrase: string, steps: seq<(Request, Fault)>,
                        d': Disk, m': Memory, passphrase': string)
    requires SALT in d.files
    decreases |steps|
  {
    if steps == [] then d' == d && m' == m && passphrase' == passphrase
    else
      var (q, fault) := steps[0];
      && ValidRequest(q) && q.newPassphrase != "" && Survivable(fault)
      && SALT in DiskAfter(kdf, d, m, q, fault).files
      && Chain(kdf, DiskAfter(kdf, d, m, q, fault), MemoryNext(kdf, d, m, passphrase, q, fault),
               DuePassphrase(passphrase, q, fault.stage), steps[1..], d', m', passphrase')
  }

  /** They keep disk and memory consistent under the passphrase last set, and
      every credential keeps its plaintext throughout. */
  lemma {:induction false} ChainKeepsSecrets(kdf: Kdf, d: Disk, m: Memory, passphrase: string,
                                             steps: seq<(Request, Fault)>, d': Disk, m': Memory, passphrase': string)
    requires Consistent(kdf, d, m, passphrase) && Chain(kdf, d, m, passphrase, steps, d', m', passphrase')
    ensures Consistent(kdf, d', m', passphrase')
    ensures SameSecrets(d.rows, m.keys.streamKeyKek, d'.rows, m'.keys.streamKeyKek)
    decreases |steps|
  {
    if steps != [] {
      var (q, fault) := steps[0];
      SurvivableKeepsSecrets(kdf, d, m, passphrase, q, fault);
      ChainKeepsSecrets(kdf, DiskAfter(kdf, d, m, q, fault), MemoryNext(kdf, d, m, passphrase, q, fault),
                        DuePassphrase(passphrase, q, fault.stage), steps[1..], d', m', passphrase');
    }
  }
}
