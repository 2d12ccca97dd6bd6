/** Passphrase rotation (app/api/security_api.py) as a protocol over three salt
    files, one database transaction and the keys in memory. It may be stopped
    at any step, by an exception or by the death of the process. Encryption is
    ideal: a ciphertext opens under the key, nonce and associated data it was
    made with, and under nothing else. */
module Rotation {
  import opened Options
  import opened KeyMaterials

  // ---------------------------------------------------------------------
  // Credentials
  // ---------------------------------------------------------------------

  datatype Cipher = Sealed(key: string, nonce: string, aad: string, plaintext: string) | Garbage(bytes: string)

  datatype Row = Row(targetId: string, lifetime: string, ciphertext: Cipher, nonce: string, salt: string,
                     last4: string, createdAt: int, expiresAt: Option<int>)

  /** Credential rows by id. */
  type Rows = map<string, Row>

  const AAD_DISCRIMINATOR := "credential:stream_key:v1"

  function Aad(salt: string): Option<string> {
    if |salt| == SALT_LENGTH then Some(AAD_DISCRIMINATOR + salt) else None
  }

  /** `None` stands for every way decryption can raise. */
  function Open(key: string, row: Row): Option<string> {
    var c, aad := row.ciphertext, Aad(row.salt);
    if aad.Some? && c.Sealed? && c.key == key && c.nonce == row.nonce && c.aad == aad.value
    then Some(c.plaintext) else None
  }

  /** A row opens to a plaintext if and only if its salt has sixteen bytes and its
      ciphertext was made of that plaintext, with this key, with the nonce the row
      holds, and for the discriminator followed by the salt the row holds. */
  lemma OpensExactly(key: string, row: Row, plaintext: string)
    ensures Open(key, row) == Some(plaintext) <==>
            && |row.salt| == 16
            && row.ciphertext == Sealed(key, row.nonce, "credential:stream_key:v1" + row.salt, plaintext)
  {
    assert row.ciphertext.Sealed? ==>
      row.ciphertext == Sealed(row.ciphertext.key, row.ciphertext.nonce, row.ciphertext.aad, row.ciphertext.plaintext);
  }

  /** The random bytes drawn for one row. */
  datatype Fresh = Fresh(salt: string, nonce: string)

  function Seal(key: string, row: Row, plaintext: string, f: Fresh): Row
    requires |f.salt| == SALT_LENGTH
  {
    row.(ciphertext := Sealed(key, f.nonce, Aad(f.salt).value, plaintext), nonce := f.nonce, salt := f.salt)
  }

  /** The row opens under `key`. */
  predicate Opens(key: string, row: Row) { Open(key, row).Some? }

  predicate AllOpen(key: string, rows: Rows) {
    forall id :: id in rows ==> Opens(key, rows[id])
  }

  ghost predicate FreshSalts(draw: string -> Fresh) {
    forall id :: |draw(id).salt| == SALT_LENGTH
  }

  /** `after` is `before` with the secret of every row sealed anew: under the new
      key, with the nonce and the salt drawn for that row, and bound to the
      discriminator followed by that salt. Nothing else is changed. */
  ghost predicate Rewrapped(before: Rows, after: Rows, oldKey: string, newKey: string, draw: string -> Fresh) {
    && after.Keys == before.Keys
    && forall id :: id in before ==>
         && Opens(oldKey, before[id])
         && after[id].nonce == draw(id).nonce && after[id].salt == draw(id).salt
         && after[id].ciphertext == Sealed(newKey, draw(id).nonce, "credential:stream_key:v1" + draw(id).salt,
                                           Open(oldKey, before[id]).value)
         && SameDetails(before[id], after[id])
  }

  /** All of a row but what is sealed and how. */
  predicate SameDetails(a: Row, b: Row) {
    && b.targetId == a.targetId && b.lifetime == a.lifetime && b.last4 == a.last4
    && b.createdAt == a.createdAt && b.expiresAt == a.expiresAt
  }

  /** What the transaction's loop makes of the rows. */
  function RewrapAll(rows: Rows, newKey: string, oldKey: string, draw: string -> Fresh): Rows
    requires AllOpen(oldKey, rows) && forall id :: id in rows ==> |draw(id).salt| == SALT_LENGTH
  {
    map id | id in rows :: Seal(newKey, rows[id], Open(oldKey, rows[id]).value, draw(id))
  }

  lemma RewrapAllRewraps(rows: Rows, newKey: string, oldKey: string, draw: string -> Fresh)
    requires AllOpen(oldKey, rows) && forall id :: id in rows ==> |draw(id).salt| == SALT_LENGTH
    ensures Rewrapped(rows, RewrapAll(rows, newKey, oldKey, draw), oldKey, newKey, draw)
  {
  }

  // ---------------------------------------------------------------------
  // The protocol
  // ---------------------------------------------------------------------

  datatype File = SALT | PREVIOUS | NEW | PREVIOUS_TMP | NEW_TMP

  /** What survives the process. */
  datatype Disk = Disk(files: map<File, string>, rows: Rows, sessions: set<string>, tokens: set<string>)

  /** The keys and the salt in memory. */
  datatype Memory = Memory(salt: string, keys: DerivedKeys)

  /** The effects of a rotation, in order. */
  datatype Stage =
    | WritePreviousTmp | RenamePrevious | WriteNewTmp | RenameNew
    | Transaction | RenameSalt | SwapKeys | Finished

  function Index(s: Stage): nat {
    match s
    case WritePreviousTmp => 0 case RenamePrevious => 1 case WriteNewTmp => 2 case RenameNew => 3
    case Transaction => 4 case RenameSalt => 5 case SwapKeys => 6 case Finished => 7
  }

  /** How a rotation ends: at `stage`, before its effect, an exception is raised
      or the process dies; `Finished` is the end. */
  datatype Fault = Raise(stage: Stage) | Die(stage: Stage)

  datatype Request = Request(oldPassphrase: string, newPassphrase: string, newSalt: string, draw: string -> Fresh)

  datatype Outcome = Rotated(rewrapped: nat, sessionsRevoked: nat, tokensRevoked: nat) | WrongPassphrase | Failed | Died

  ghost predicate ValidRequest(q: Request) {
    |q.newSalt| == SALT_LENGTH && FreshSalts(q.draw)
  }

  /** The salt files after the stages before `stage`, none of which failed. */
  function FilesAt(files: map<File, string>, newSalt: string, stage: Stage): map<File, string>
    requires SALT in files
  {
    var n, oldSalt := Index(stage), files[SALT];
    var files := if n == 1 then files[PREVIOUS_TMP := oldSalt] else files;
    var files := if n >= 2 then (files - {PREVIOUS_TMP})[PREVIOUS := oldSalt] else files;
    var files := if n == 3 then files[NEW_TMP := newSalt] else files;
    var files := if n >= 4 then (files - {NEW_TMP})[NEW := newSalt] else files;
    if n >= 6 then (files - {NEW})[SALT := newSalt] else files
  }

  lemma StagedFiles(files: map<File, string>, newSalt: string)
    requires SALT in files
    ensures
      var previous := (files[PREVIOUS_TMP := files[SALT]] - {PREVIOUS_TMP})[PREVIOUS := files[SALT]];
      && FilesAt(files, newSalt, WriteNewTmp) == previous
      && FilesAt(files, newSalt, RenameNew) == previous[NEW_TMP := newSalt]
      && FilesAt(files, newSalt, Transaction) == (previous[NEW_TMP := newSalt] - {NEW_TMP})[NEW := newSalt]
  {
    assert files[PREVIOUS_TMP := files[SALT]] - {PREVIOUS_TMP} == files - {PREVIOUS_TMP};
    var previous := (files - {PREVIOUS_TMP})[PREVIOUS := files[SALT]];
    assert previous[NEW_TMP := newSalt] - {NEW_TMP} == previous - {NEW_TMP};
  }

  /** The disk after the stages before `stage`, none of which failed. */
  function DiskAt(kdf: Kdf, d: Disk, m: Memory, q: Request, stage: Stage): Disk
    requires SALT in d.files
    requires Index(stage) > 4 ==> AllOpen(m.keys.streamKeyKek, d.rows)
    requires forall id :: id in d.rows ==> |q.draw(id).salt| == SALT_LENGTH
  {
    var files := FilesAt(d.files, q.newSalt, stage);
    if Index(stage) <= 4 then d.(files := files)
    else
      Disk(files,
           RewrapAll(d.rows, kdf(q.newPassphrase, q.newSalt).streamKeyKek, m.keys.streamKeyKek, q.draw),
           {}, {})
  }

  /** The handler of an exception raised once the staging file is written. */
  function Cleanup(d: Disk): Disk { d.(files := d.files - {NEW}) }

  /** The stage a request really ends at: an unreadable row raises inside the
      transaction, which then has no effect. */
  function EndOf(d: Disk, m: Memory, fault: Fault): Fault {
    if Index(fault.stage) > 4 && !AllOpen(m.keys.streamKeyKek, d.rows) then Raise(Transaction) else fault
  }

  /** Disk and memory after a rotation whose old passphrase was right. */
  function DiskAfter(kdf: Kdf, d: Disk, m: Memory, q: Request, fault: Fault): Disk
    requires SALT in d.files && forall id :: id in d.rows ==> |q.draw(id).salt| == SALT_LENGTH
  {
    var end := EndOf(d, m, fault);
    var disk := DiskAt(kdf, d, m, q, end.stage);
    if end.Raise? && Index(end.stage) >= 4 && !end.stage.Finished? then Cleanup(disk) else disk
  }

  function MemoryAfter(kdf: Kdf, d: Disk, m: Memory, q: Request, fault: Fault): Memory {
    if EndOf(d, m, fault).stage.Finished? then Memory(q.newSalt, kdf(q.newPassphrase, q.newSalt)) else m
  }

  /** The salt on disk is the one in memory, the keys are derived from it with
      `passphrase`, and every row opens under them. */
  ghost predicate Consistent(kdf: Kdf, d: Disk, m: Memory, passphrase: string) {
    && SALT in d.files && d.files[SALT] == m.salt && |m.salt| == SALT_LENGTH
    && passphrase != "" && m.keys == kdf(passphrase, m.salt)
    && AllOpen(m.keys.streamKeyKek, d.rows)
  }

  /** A start of the process: the salt is read from its file, and unlocking
      derives the keys. */
  function Restart(kdf: Kdf, d: Disk, passphrase: string): Memory
    requires SALT in d.files
  {
    Memory(d.files[SALT], kdf(passphrase, d.files[SALT]))
  }

  // ---------------------------------------------------------------------
  // The handler
  // ---------------------------------------------------------------------

  class Server {
    const kdf: Kdf
    const keyMaterial: KeyMaterial
    var files: map<File, string>
    var rows: Rows
    var sessions: set<string>
    var tokens: set<string>

    ghost predicate Valid()
      reads this, keyMaterial
    {
      && keyMaterial.Valid() && keyMaterial.kdf == kdf && keyMaterial.state == READY
      && SALT in files && |files[SALT]| == SALT_LENGTH
    }

    /** Boots and unlocks. The salt is read from its file, or written there, the
        random `newSalt`, if there is none. A file of the wrong length is refused. */
    constructor (kdf: Kdf, d: Disk, passphrase: string, newSalt: string)
      requires SALT in d.files ==> |d.files[SALT]| == SALT_LENGTH
      requires |newSalt| == SALT_LENGTH && passphrase != ""
      ensures Valid() && this.kdf == kdf && fresh(keyMaterial)
      ensures OnDisk() == d.(files := if SALT in d.files then d.files else d.files[SALT := newSalt])
      ensures InMemory() == Restart(kdf, OnDisk(), passphrase)
    {
      this.kdf := kdf;
      var loaded := if SALT in d.files then d.files else d.files[SALT := newSalt];
      files, rows, sessions, tokens := loaded, d.rows, d.sessions, d.tokens;
      var material := new KeyMaterial(kdf, loaded[SALT]);
      var unlocked := material.Unlock(passphrase, true);
      keyMaterial := material;
    }

    ghost function OnDisk(): Disk
      reads this
    {
      Disk(files, rows, sessions, tokens)
    }

    ghost function InMemory(): Memory
      requires keyMaterial.keys.Some?
      reads this, keyMaterial
    {
      Memory(keyMaterial.kdfSalt, keyMaterial.keys.value)
    }

    /** The rows re-wrapped one by one inside the transaction; `None` if some row
        does not open, and then nothing is written. */
    method RewrapRows(oldKey: string, newKey: string, draw: string -> Fresh) returns (r: Option<Rows>, count: nat)
      requires FreshSalts(draw)
      ensures r.Some? <==> AllOpen(oldKey, rows)
      ensures r.Some? ==> r.value == RewrapAll(rows, newKey, oldKey, draw) && count == |rows|
      ensures r.Some? ==> Rewrapped(rows, r.value, oldKey, newKey, draw)
    {
      hide Rewrapped;
      var done: Rows := map[];
      var todo := rows.Keys;
      count := 0;
      while todo != {}
        invariant todo <= rows.Keys && done.Keys == rows.Keys - todo
        invariant count == |rows.Keys| - |todo|
        invariant forall id :: id in done ==>
          Opens(oldKey, rows[id]) && done[id] == Seal(newKey, rows[id], Open(oldKey, rows[id]).value, draw(id))
        decreases todo
      {
        var id :| id in todo;
        var plaintext := Open(oldKey, rows[id]);
        if plaintext.None? {
          assert !Opens(oldKey, rows[id]);
          return None, count;
        }
        done := done[id := Seal(newKey, rows[id], plaintext.value, draw(id))];
        todo := todo - {id};
        count := count + 1;
      }
      r := Some(done);
      assert done == RewrapAll(rows, newKey, oldKey, draw);
      RewrapAllRewraps(rows, newKey, oldKey, draw);
    }

    /** The salt files are staged: the old salt kept beside, the new one ready. */
    method StageFiles(newSalt: string, fault: Fault) returns (reached: bool)
      requires Valid()
      modifies this`files
      ensures reached == (Index(fault.stage) >= 4)
      ensures files == FilesAt(old(files), newSalt, if reached then Transaction else fault.stage)
    {
      reached := false;
      StagedFiles(files, newSalt);
      var oldSalt := files[SALT];
      if fault.stage == WritePreviousTmp { return; }
      files := files[PREVIOUS_TMP := oldSalt];
      if fault.stage == RenamePrevious { return; }
      files := (files - {PREVIOUS_TMP})[PREVIOUS := oldSalt];
      if fault.stage == WriteNewTmp { return; }
      files := files[NEW_TMP := newSalt];
      if fault.stage == RenameNew { return; }
      files := (files - {NEW_TMP})[NEW := newSalt];
      reached := true;
    }

    /** `rotate_passphrase`, from the check of the old passphrase on. */
    method Rotate(q: Request, fault: Fault) returns (outcome: Outcome)
      requires Valid() && ValidRequest(q)
      modifies this, keyMaterial
      ensures keyMaterial.Valid() && keyMaterial.state == READY && SALT in files
      ensures
        var d, m := old(OnDisk()), old(InMemory());
        if q.oldPassphrase == "" || m.keys != kdf(q.oldPassphrase, m.salt) then
          outcome == WrongPassphrase && OnDisk() == d && InMemory() == m
        else
          && OnDisk() == DiskAfter(kdf, d, m, q, fault) && InMemory() == MemoryAfter(kdf, d, m, q, fault)
          && (outcome.Rotated? <==> EndOf(d, m, fault).stage.Finished?)
          && (outcome.Rotated? ==> outcome == Rotated(|d.rows|, |d.sessions|, |d.tokens|))
    {
      hide Rewrapped, RewrapAll;
      var verified := keyMaterial.VerifyPassphrase(q.oldPassphrase);
      if !verified {
        return WrongPassphrase;
      }
      ghost var d, m := OnDisk(), InMemory();
      var oldKey := keyMaterial.keys.value.streamKeyKek;
      var newKeys := kdf(q.newPassphrase, q.newSalt);
      var staged := StageFiles(q.newSalt, fault);
      if !staged {
        return if fault.Die? then Died else Failed;
      }
      if fault.stage == Transaction {
        if fault.Die? {
          return Died;
        }
        files := files - {NEW};
        return Failed;
      }
      var rewrapped, count := RewrapRows(oldKey, newKeys.streamKeyKek, q.draw);
      if rewrapped.None? {
        files := files - {NEW};
        return Failed;
      }
      var sessionsRevoked, tokensRevoked := |sessions|, |tokens|;
      rows, sessions, tokens := rewrapped.value, {}, {};
      if fault.stage == RenameSalt {
        if fault.Die? {
          return Died;
        }
        files := files - {NEW};
        return Failed;
      }
      files := (files - {NEW})[SALT := q.newSalt];
      if fault.stage == SwapKeys {
        if fault.Die? {
          return Died;
        }
        files := files - {NEW};
        return Failed;
      }
      var swapped := keyMaterial.RotateInPlace(q.newSalt, newKeys);
      outcome := Rotated(count, sessionsRevoked, tokensRevoked);
    }
  }
}
