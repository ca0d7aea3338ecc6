/**
  `check_and_fix_ssh_key_permissions`: the private key's permission bits must be exactly
  owner read/write (octal 600) before rsync runs. File modes are 32-bit `st_mode` words;
  the constants below are the octal masks 0o777, 0o600 and 0o7777 written in hex.
*/
module CredentialGuard {

  /** 0o777: the permission bits `st_mode & 0o777` looks at. */
  const PERMISSION_MASK: bv32 := 0x1FF
  /** 0o600: owner read and write, nothing for group and others. */
  const OWNER_READ_WRITE: bv32 := 0x180
  /** 0o7777: the bits `chmod` sets (permissions, setuid, setgid, sticky). */
  const CHMOD_MASK: bv32 := 0xFFF

  function PermissionBits(mode: bv32): bv32 {
    mode & PERMISSION_MASK
  }

  /** `os.chmod(path, perm)`: the low twelve bits become `perm`, the file-type bits stay. */
  function Chmod(mode: bv32, perm: bv32): (r: bv32)
    ensures r & CHMOD_MASK == perm & CHMOD_MASK
    ensures r & !CHMOD_MASK == mode & !CHMOD_MASK
  {
    (mode & !CHMOD_MASK) | (perm & CHMOD_MASK)
  }

  /**
    The mode after a successful check: untouched when the permission bits already read
    600, otherwise `chmod 600`. Either way the key ends with permission bits 600 and the
    same file type.
  */
  function FixedMode(mode: bv32): (r: bv32)
    ensures PermissionBits(r) == OWNER_READ_WRITE
    ensures PermissionBits(mode) == OWNER_READ_WRITE ==> r == mode
    ensures r & !CHMOD_MASK == mode & !CHMOD_MASK
  {
    if PermissionBits(mode) != OWNER_READ_WRITE then Chmod(mode, OWNER_READ_WRITE) else mode
  }

  lemma FixIsIdempotent(mode: bv32)
    ensures FixedMode(FixedMode(mode)) == FixedMode(mode)
  {
  }

  /**
    The key files the script can see: `modes` maps each existing path to its `st_mode`
    (`os.stat` of any other path fails); `chmod` of a path in `locked` fails (for
    instance a file owned by someone else).
  */
  class KeyStore {
    var modes: map<string, bv32>
    const locked: set<string>

    constructor (modes: map<string, bv32>, locked: set<string>)
      ensures this.modes == modes && this.locked == locked
    {
      this.modes := modes;
      this.locked := locked;
    }

    /** The check raises: `os.stat` fails, or a needed `os.chmod` fails. */
    predicate CheckFails(path: string)
      reads this
    {
      path !in modes || (PermissionBits(modes[path]) != OWNER_READ_WRITE && path in locked)
    }

    /**
      `check_and_fix_ssh_key_permissions(path)`. On success the key's permission bits
      read 600 and only that key changed; on failure nothing changed, and the error is
      re-raised unless debug mode is on.
    */
    method CheckAndFixPermissions(path: string, debugMode: bool) returns (raised: bool)
      modifies this
      ensures raised <==> old(CheckFails(path)) && !debugMode
      ensures old(CheckFails(path)) ==> modes == old(modes)
      ensures !old(CheckFails(path)) ==> modes == old(modes)[path := FixedMode(old(modes)[path])]
      ensures !old(CheckFails(path)) ==> PermissionBits(modes[path]) == OWNER_READ_WRITE
    {
      raised := false;
      if path !in modes {
        raised := !debugMode;
        return;
      }
      var mode := modes[path];
      if PermissionBits(mode) != OWNER_READ_WRITE {
        if path in locked {
          raised := !debugMode;
          return;
        }
        modes := modes[path := Chmod(mode, OWNER_READ_WRITE)];
      }
    }
  }
}
