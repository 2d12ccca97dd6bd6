/** The derived keys a process holds, after app/auth/key_material.py. Key
    derivation is any deterministic function of passphrase and salt. */
module KeyMaterials {
  import opened Options

  const SALT_LENGTH := 16

  datatype DerivedKeys = DerivedKeys(streamKeyKek: string, apiTokenMacKey: string, sessionTokenMacKey: string)

  type Kdf = (string, string) -> DerivedKeys

  datatype KeyState = LOCKED | UNLOCKING | READY

  class KeyMaterial {
    const kdf: Kdf
    var kdfSalt: string
    var state: KeyState
    var keys: Option<DerivedKeys>

    ghost predicate Valid()
      reads this
    {
      |kdfSalt| == SALT_LENGTH && state != UNLOCKING && (state == READY <==> keys.Some?)
    }

    constructor (kdf: Kdf, salt: string)
      requires |salt| == SALT_LENGTH
      ensures Valid() && this.kdf == kdf && kdfSalt == salt && state == LOCKED
    {
      this.kdf, kdfSalt, state, keys := kdf, salt, LOCKED, None;
    }

    /** Derives the keys once; later calls change nothing, whatever passphrase
        they bring. An empty passphrase is refused, and so is any if the
        derivation raises, which leaves the material locked as before. */
    method Unlock(passphrase: string, derives: bool) returns (ok: bool)
      requires Valid()
      modifies this
      ensures Valid() && kdfSalt == old(kdfSalt)
      ensures ok == (passphrase != "" && (old(state) == READY || derives))
      ensures keys == if ok && old(state) == LOCKED then Some(kdf(passphrase, kdfSalt)) else old(keys)
      ensures state == if ok then READY else old(state)
    {
      if passphrase == "" {
        return false;
      }
      if state == READY {
        return true;
      }
      state := UNLOCKING;
      if !derives {
        state := LOCKED;
        return false;
      }
      keys := Some(kdf(passphrase, kdfSalt));
      state := READY;
      ok := true;
    }

    /** Does the passphrase derive all three keys held? */
    method VerifyPassphrase(passphrase: string) returns (ok: bool)
      requires Valid()
      ensures ok <==> state == READY && passphrase != "" && keys == Some(kdf(passphrase, kdfSalt))
    {
      if state != READY || keys.None? || passphrase == "" {
        return false;
      }
      var trial, held := kdf(passphrase, kdfSalt), keys.value;
      ok := trial.streamKeyKek == held.streamKeyKek
            && trial.apiTokenMacKey == held.apiTokenMacKey
            && trial.sessionTokenMacKey == held.sessionTokenMacKey;
    }

    /** Refuses, as the source raises, outside READY or on a salt of the wrong
        length. */
    method RotateInPlace(newSalt: string, newKeys: DerivedKeys) returns (ok: bool)
      requires Valid()
      modifies this
      ensures Valid() && state == old(state)
      ensures ok == (state == READY && |newSalt| == SALT_LENGTH)
      ensures kdfSalt == (if ok then newSalt else old(kdfSalt))
      ensures keys == (if ok then Some(newKeys) else old(keys))
    {
      if state != READY || |newSalt| != SALT_LENGTH {
        return false;
      }
      ok := true;
      kdfSalt := newSalt;
      keys := Some(newKeys);
    }
  }
}
