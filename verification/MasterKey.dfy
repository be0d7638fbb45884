/** The master-key store: a salt, a verifier and a wrapped data encryption key (DEK) in three
    files, over ideal cryptography (keys are terms; opening undoes sealing under the same key
    and associated data and fails otherwise; fresh randomness never repeats). Any write may
    fail, or the process may die in it. */
module MasterKey {
  import opened Options

  const MIN_PASSWORD_LENGTH := 12

  /** The content of a file; `Junk` is a truncated write. */
  datatype Blob = Salt(n: nat) | Sealed(key: Key, plain: Plain) | Junk

  /** A derived key; derivation is injective in password and salt. */
  datatype Key = Derived(password: string, salt: Blob)

  /** The two plaintexts, each with its own associated data. */
  datatype Plain = Magic | Dek(n: nat)

  datatype File = SaltFile | VerifyFile | DekFile

  datatype Error = TooShort | Incorrect | Corrupted | Unwrap | WriteFailed

  datatype Reply<T> = Ok(value: T) | Err(error: Error)

  /** The data directory. `left` is how many writes will still succeed (None: all of them);
      the one after that fails or kills the process, leaving a truncated file behind if
      `truncates`. */
  datatype Disk = Disk(salt: Option<Blob>, verify: Option<Blob>, dek: Option<Blob>, next: nat,
                       left: Option<nat>, truncates: bool)

  const EMPTY := Disk(None, None, None, 0, None, false)

  function Put(d: Disk, f: File, b: Blob): Disk {
    match f
    case SaltFile => d.(salt := Some(b))
    case VerifyFile => d.(verify := Some(b))
    case DekFile => d.(dek := Some(b))
  }

  function FileOf(d: Disk, f: File): Option<Blob> {
    match f
    case SaltFile => d.salt
    case VerifyFile => d.verify
    case DekFile => d.dek
  }

  predicate CanWrite(d: Disk) {
    d.left != Some(0)
  }

  /** `os.WriteFile`, or with `renamed` the atomic variant through a temporary file. */
  function Write(d: Disk, f: File, b: Blob, renamed: bool): Disk {
    if !CanWrite(d) then if d.truncates && !renamed then Put(d, f, Junk) else d
    else Put(d, f, b).(left := if d.left.Some? then Some(d.left.value - 1) else None)
  }

  function Bootstrap(d: Disk, password: string): (Disk, Reply<Key>) {
    var salt := Salt(d.next);
    var d1 := Write(d.(next := d.next + 1), SaltFile, salt, false);
    if !CanWrite(d) then (d1, Err(WriteFailed))
    else
      var key := Derived(password, salt);
      var d2 := Write(d1, VerifyFile, Sealed(key, Magic), false);
      (d2, if CanWrite(d1) then Ok(key) else Err(WriteFailed))
  }

  function UnlockExisting(d: Disk, password: string, salt: Blob): Reply<Key> {
    var key := Derived(password, salt);
    if d.verify.None? then Err(Corrupted)
    else if d.verify.value == Sealed(key, Magic) then Ok(key) else Err(Incorrect)
  }

  function Unlock(d: Disk, password: string): (Disk, Reply<Key>) {
    if |password| < MIN_PASSWORD_LENGTH then (d, Err(TooShort))
    else if d.salt.Some? then (d, UnlockExisting(d, password, d.salt.value))
    else Bootstrap(d, password)
  }

  predicate Opens(key: Key, b: Blob) {
    b.Sealed? && b.key == key && b.plain.Dek?
  }

  function LoadOrCreateDek(d: Disk, key: Key): (Disk, Reply<nat>) {
    if d.dek.Some? then (d, if Opens(key, d.dek.value) then Ok(d.dek.value.plain.n) else Err(Unwrap))
    else
      var d1 := Write(d.(next := d.next + 1), DekFile, Sealed(key, Dek(d.next)), false);
      (d1, if CanWrite(d) then Ok(d.next) else Err(WriteFailed))
  }

  function UnlockDek(d: Disk, password: string): (Disk, Reply<nat>) {
    var (d1, key) := Unlock(d, password);
    if key.Err? then (d1, Err(key.error)) else LoadOrCreateDek(d1, key.value)
  }

  /** The three renames of `ChangePassword`, in its order. */
  function Rewrap(d: Disk, password: string, dek: nat): (Disk, Reply<nat>) {
    var salt := Salt(d.next);
    var key := Derived(password, salt);
    var d1 := Write(d.(next := d.next + 1), DekFile, Sealed(key, Dek(dek)), true);
    if !CanWrite(d) then (d1, Err(WriteFailed))
    else
      var d2 := Write(d1, VerifyFile, Sealed(key, Magic), true);
      if !CanWrite(d1) then (d2, Err(WriteFailed))
      else (Write(d2, SaltFile, salt, true), if CanWrite(d2) then Ok(dek) else Err(WriteFailed))
  }

  function ChangePassword(d: Disk, oldPassword: string, newPassword: string): (Disk, Reply<nat>) {
    if |newPassword| < MIN_PASSWORD_LENGTH then (d, Err(TooShort))
    else
      var (d1, dek) := UnlockDek(d, oldPassword);
      if dek.Err? then (d1, dek) else Rewrap(d1, newPassword, dek.value)
  }

  // ---------------------------------------------------------------- what a store can be

  predicate Fresh(d: Disk) {
    d.salt.None? && d.verify.None? && d.dek.None?
  }

  predicate Verifies(d: Disk, password: string) {
    |password| >= MIN_PASSWORD_LENGTH && d.salt.Some? &&
      d.verify == Some(Sealed(Derived(password, d.salt.value), Magic))
  }

  /** Opens with this password and yields this DEK. */
  predicate Healthy(d: Disk, password: string, dek: nat) {
    Verifies(d, password) && d.dek == Some(Sealed(Derived(password, d.salt.value), Dek(dek)))
  }

  /** Opens with no password at all. */
  ghost predicate Dead(d: Disk) {
    d.salt.Some? && forall password :: Verifies(d, password) ==>
      d.dek.Some? && !Opens(Derived(password, d.salt.value), d.dek.value)
  }

  function NewerThan(b: Option<Blob>): nat {
    match b
    case Some(Salt(n)) => n + 1
    case Some(Sealed(Derived(_, Salt(n)), _)) => n + 1
    case _ => 0
  }

  /** Random values still to come differ from those in use. */
  predicate Unused(d: Disk) {
    NewerThan(d.salt) <= d.next && NewerThan(d.verify) <= d.next && NewerThan(d.dek) <= d.next
  }

  /** Every reachable store is fresh, verified but without a DEK, healthy, or dead. `given` is
      the DEK that was handed out, if any was. */
  ghost predicate Inv(d: Disk, given: Option<nat>) {
    && Unused(d)
    && (|| (Fresh(d) && given.None?)
        || (given.None? && d.dek.None? && exists password :: Verifies(d, password))
        || (exists password, dek: nat :: Healthy(d, password, dek) && (given.None? || given == Some(dek)))
        || Dead(d))
  }

  // ---------------------------------------------------------------- healthy stores

  /** A healthy store opens with its password and no other, and opening changes nothing. */
  lemma HealthyOpensIff(d: Disk, password: string, dek: nat, attempt: string)
    requires Healthy(d, password, dek)
    ensures UnlockDek(d, attempt).0 == d
    ensures UnlockDek(d, attempt).1.Ok? <==> attempt == password
    ensures attempt == password ==> UnlockDek(d, attempt).1 == Ok(dek)
  {
  }

  /** What a caller is told when a store does not open. */
  lemma ReplyIs(d: Disk, password: string)
    ensures var r := UnlockDek(d, password).1; r == Err(TooShort) <==> |password| < 12
    ensures |password| >= 12 && d.salt.Some? ==>
      var r := UnlockDek(d, password).1; var key := Derived(password, d.salt.value);
      && (r == Err(Corrupted) <==> d.verify.None?)
      && (r == Err(Incorrect) <==> d.verify.Some? && d.verify.value != Sealed(key, Magic))
      && (r == Err(Unwrap) <==>
          (d.verify == Some(Sealed(key, Magic)) && d.dek.Some? && forall n :: d.dek.value != Sealed(key, Dek(n))))
      && (r == Err(WriteFailed) <==> d.verify == Some(Sealed(key, Magic)) && d.dek.None? && d.left == Some(0))
    ensures |password| >= 12 && d.salt.None? && d.dek.None? ==>
      (UnlockDek(d, password).1 == Err(WriteFailed) <==> d.left.Some? && d.left.value < 3)
  {
  }

  /** A new password that is too short is refused, and a failure to open is passed on; both
      leave the three files to what opening does. */
  lemma ChangeReplyIs(d: Disk, a: string, b: string)
    ensures |b| < 12 ==> ChangePassword(d, a, b) == (d, Err(TooShort))
    ensures |b| >= 12 && UnlockDek(d, a).1.Err? ==> ChangePassword(d, a, b) == UnlockDek(d, a)
  {
  }

  /** A new data directory is a reachable store. */
  lemma EmptyIsSound()
    ensures Inv(EMPTY, None)
  {
  }

  /** The renames leave every file with its old content or its new one. */
  lemma RewrapNeverTruncates(d: Disk, password: string, dek: nat)
    ensures var t := Rewrap(d, password, dek).0; var key := Derived(password, Salt(d.next));
            && (t.salt == d.salt || t.salt == Some(Salt(d.next)))
            && (t.verify == d.verify || t.verify == Some(Sealed(key, Magic)))
            && (t.dek == d.dek || t.dek == Some(Sealed(key, Dek(dek))))
  {
  }

  /** The first run writes its files in place. A store whose first run died can be opened again,
      by whatever password, exactly when it died before leaving anything, or after the verifier
      and before the DEK, or when it was finished. */
  lemma InterruptedFirstRunOpensIff(password: string, left: Option<nat>, truncates: bool)
    requires |password| >= MIN_PASSWORD_LENGTH
    ensures var t := UnlockDek(EMPTY.(left := left, truncates := truncates), password).0;
            (exists attempt :: UnlockDek(t.(left := None), attempt).1.Ok?) <==>
            left.None? || left.value >= 3 || (!truncates && left.value != 1)
  {
    var t := UnlockDek(EMPTY.(left := left, truncates := truncates), password).0;
    var u := t.(left := None);
    if left.None? || left.value >= 3 || (!truncates && left.value != 1) {
      assert UnlockDek(u, password).1.Ok?;
    } else {
      forall attempt ensures UnlockDek(u, attempt).1.Err? {
        ReplyIs(u, attempt);
      }
    }
  }

  /** A dead store never opens again, and no attempt changes it. */
  lemma DeadStays(d: Disk, a: string, b: string)
    requires Dead(d)
    ensures UnlockDek(d, a).0 == d && UnlockDek(d, a).1.Err?
    ensures ChangePassword(d, a, b).0 == d && ChangePassword(d, a, b).1.Err?
  {
    if UnlockExisting(d, a, d.salt.value).Ok? && |a| >= MIN_PASSWORD_LENGTH {
      assert Verifies(d, a);
    }
  }

  /** After n of the three renames. */
  lemma RewrapStops(d: Disk, password: string, dek: nat, next: string)
    requires Healthy(d, password, dek) && Unused(d) && |next| >= MIN_PASSWORD_LENGTH
    ensures var (t, r) := Rewrap(d, next, dek);
            && Unused(t)
            && (d.left == Some(0) ==> r.Err? && Healthy(t, password, dek))
            && (d.left == Some(1) || d.left == Some(2) ==> r.Err? && Dead(t))
            && (d.left.None? || d.left.value > 2 ==> r == Ok(dek) && Healthy(t, next, dek))
  {
  }

  /** A password change on a healthy store that dies after `left` writes can be opened again,
      by whatever password, exactly when it died before the first rename or after the last. */
  lemma InterruptedChangeOpensIff(d: Disk, password: string, dek: nat, next: string)
    requires Healthy(d, password, dek) && Unused(d) && |next| >= MIN_PASSWORD_LENGTH
    ensures var t := ChangePassword(d, password, next).0;
            (exists attempt :: UnlockDek(t, attempt).1.Ok?) <==> d.left != Some(1) && d.left != Some(2)
  {
    HealthyOpensIff(d, password, dek, password);
    RewrapStops(d, password, dek, next);
    var t := ChangePassword(d, password, next).0;
    if d.left == Some(1) || d.left == Some(2) {
      forall attempt ensures UnlockDek(t, attempt).1.Err? {
        DeadStays(t, attempt, attempt);
      }
    } else {
      var q := if d.left == Some(0) then password else next;
      HealthyOpensIff(t, q, dek, q);
      assert UnlockDek(t, q).1.Ok?;
    }
  }

  /** Changing the password keeps the DEK and retires the old password; a wrong old password
      changes nothing. */
  lemma ChangeKeepsDek(d: Disk, password: string, dek: nat, a: string, b: string)
    requires Healthy(d, password, dek) && Unused(d) && d.left.None?
    ensures var (t, r) := ChangePassword(d, a, b);
            && (r.Ok? <==> a == password && |b| >= MIN_PASSWORD_LENGTH)
            && (if r.Ok? then Healthy(t, b, dek) else t == d)
  {
    HealthyOpensIff(d, password, dek, a);
    if a == password && |b| >= MIN_PASSWORD_LENGTH {
      RewrapStops(d, password, dek, b);
    }
  }

  // ---------------------------------------------------------------- every history

  datatype Op =
    | DoUnlock(password: string, left: Option<nat>, truncates: bool)
    | DoChange(oldPassword: string, newPassword: string, left: Option<nat>, truncates: bool)

  function Perform(d: Disk, op: Op): (Disk, Reply<nat>) {
    var d1 := d.(left := op.left, truncates := op.truncates);
    match op
    case DoUnlock(password, _, _) => UnlockDek(d1, password)
    case DoChange(a, b, _, _) => ChangePassword(d1, a, b)
  }

  /** The store after a history, and the DEKs its operations worked with, in order. */
  function Run(d: Disk, ops: seq<Op>): (Disk, seq<nat>)
    decreases |ops|
  {
    if ops == [] then (d, [])
    else
      var (d1, r) := Perform(d, ops[0]);
      var (t, later) := Run(d1, ops[1..]);
      (t, (if r.Ok? then [r.value] else []) + later)
  }

  lemma UnlockKeeps(d: Disk, given: Option<nat>, password: string)
    requires Inv(d, given)
    ensures var (t, r) := UnlockDek(d, password);
            && (r.Ok? ==> given.None? || given == Some(r.value))
            && (r.Ok? ==> Inv(t, Some(r.value)) && Healthy(t, password, r.value))
            && (r.Err? ==> Inv(t, given))
  {
    var (t, r) := UnlockDek(d, password);
    if Dead(d) {
      DeadStays(d, password, password);
    } else if p, k: nat :| Healthy(d, p, k) && (given.None? || given == Some(k)) {
      HealthyOpensIff(d, p, k, password);
    } else if Fresh(d) {
      FreshKeeps(d, password);
    } else {
      var p :| Verifies(d, p);
      if r.Ok? {
        assert Healthy(t, password, r.value);
      } else if t.dek.Some? {
        assert Dead(t);
      } else {
        assert Verifies(t, p);
      }
    }
  }

  /** First run: salt, verifier, DEK, with a stop after any of them. */
  lemma FreshKeeps(d: Disk, password: string)
    requires Fresh(d) && Unused(d)
    ensures var (t, r) := UnlockDek(d, password);
            && Unused(t)
            && (r.Ok? ==> Healthy(t, password, r.value))
            && (r.Err? ==> Fresh(t) || Dead(t) || (t.dek.None? && Verifies(t, password)))
  {
    var (t, r) := UnlockDek(d, password);
    if |password| >= MIN_PASSWORD_LENGTH {
      if CanWrite(d) && d.left != Some(1) {
        var (d1, key) := Bootstrap(d, password);
        assert Verifies(d1, password);
      } else if t.salt.Some? {
        assert Dead(t);
      }
    }
  }

  lemma PerformKeeps(d: Disk, given: Option<nat>, op: Op)
    requires Inv(d, given)
    ensures var (t, r) := Perform(d, op);
            && (r.Ok? ==> (given.None? || given == Some(r.value)) && Inv(t, Some(r.value)))
            && (r.Err? ==> Inv(t, given))
  {
    var d1 := d.(left := op.left, truncates := op.truncates);
    SettingsDoNotMatter(d, d1, given);
    match op
    case DoUnlock(password, _, _) => UnlockKeeps(d1, given, password);
    case DoChange(a, b, _, _) =>
      if |b| >= MIN_PASSWORD_LENGTH {
        UnlockKeeps(d1, given, a);
        var (d2, dek) := UnlockDek(d1, a);
        if dek.Ok? {
          RewrapStops(d2, a, dek.value, b);
        }
      }
  }

  lemma SettingsDoNotMatter(d: Disk, t: Disk, given: Option<nat>)
    requires Inv(d, given) && t == d.(left := t.left, truncates := t.truncates)
    ensures Inv(t, given)
  {
    if password, dek: nat :| Healthy(d, password, dek) && (given.None? || given == Some(dek)) {
      assert Healthy(t, password, dek);
    } else if password :| Verifies(d, password) && d.dek.None? {
      assert Verifies(t, password);
    } else if Dead(d) {
      assert Dead(t);
    }
  }

  /** In any history of unlocks and password changes, right and wrong, each dying at any write,
      every operation that succeeds works with one and the same DEK. */
  lemma {:induction false} OneDekForever(d: Disk, given: Option<nat>, ops: seq<Op>)
    requires Inv(d, given)
    ensures var (t, deks) := Run(d, ops);
            && (forall i, j :: 0 <= i < |deks| && 0 <= j < |deks| ==> deks[i] == deks[j])
            && (given.Some? ==> forall i :: 0 <= i < |deks| ==> deks[i] == given.value)
            && Inv(t, if deks == [] then given else Some(deks[0]))
    decreases |ops|
  {
    if ops != [] {
      PerformKeeps(d, given, ops[0]);
      var (d1, r) := Perform(d, ops[0]);
      OneDekForever(d1, if r.Ok? then Some(r.value) else given, ops[1..]);
    }
  }

  // ---------------------------------------------------------------- the program

  /** The data directory as the functions of the package change it. */
  class KeyStore {
    var disk: Disk

    /** A write that succeeds leaves the new content. A rename that fails leaves the old one, a
        plain write that fails the old one or a truncated file. No other file changes. */
    method WriteFile(f: File, b: Blob, renamed: bool) returns (ok: bool)
      modifies this
      ensures ok ==> FileOf(disk, f) == Some(b)
      ensures !ok ==> FileOf(disk, f) == FileOf(old(disk), f) || (!renamed && FileOf(disk, f) == Some(Junk))
      ensures forall g :: g != f ==> FileOf(disk, g) == FileOf(old(disk), g)
      ensures disk == Write(old(disk), f, b, renamed) && ok == CanWrite(old(disk))
    {
      ok := CanWrite(disk);
      if ok {
        disk := Put(disk, f, b);
        if disk.left.Some? {
          disk := disk.(left := Some(disk.left.value - 1));
        }
      } else if disk.truncates && !renamed {
        disk := Put(disk, f, Junk);
      }
    }

    method Random() returns (n: nat)
      modifies this
      ensures n == old(disk).next && disk == old(disk).(next := n + 1)
    {
      n := disk.next;
      disk := disk.(next := n + 1);
    }

    method UnlockKey(password: string) returns (r: Reply<Key>)
      modifies this
      ensures (disk, r) == Unlock(old(disk), password)
    {
      if |password| < MIN_PASSWORD_LENGTH { return Err(TooShort); }
      if disk.salt.None? {
        var n := Random();
        var ok := WriteFile(SaltFile, Salt(n), false);
        if !ok { return Err(WriteFailed); }
        var key := Derived(password, Salt(n));
        ok := WriteFile(VerifyFile, Sealed(key, Magic), false);
        return if ok then Ok(key) else Err(WriteFailed);
      }
      if disk.verify.None? { return Err(Corrupted); }
      var key := Derived(password, disk.salt.value);
      r := if disk.verify.value == Sealed(key, Magic) then Ok(key) else Err(Incorrect);
    }

    method Open(password: string) returns (r: Reply<nat>)
      modifies this
      ensures (disk, r) == UnlockDek(old(disk), password)
    {
      var key := UnlockKey(password);
      if key.Err? { return Err(key.error); }
      if disk.dek.Some? {
        return if Opens(key.value, disk.dek.value) then Ok(disk.dek.value.plain.n) else Err(Unwrap);
      }
      var n := Random();
      var ok := WriteFile(DekFile, Sealed(key.value, Dek(n)), false);
      r := if ok then Ok(n) else Err(WriteFailed);
    }

    /** `ChangePassword`, with its result seen by the caller as no more than success. */
    method Change(oldPassword: string, newPassword: string) returns (r: Reply<nat>)
      modifies this
      ensures (disk, r) == ChangePassword(old(disk), oldPassword, newPassword)
    {
      if |newPassword| < MIN_PASSWORD_LENGTH { return Err(TooShort); }
      r := Open(oldPassword);
      if r.Err? { return; }
      var n := Random();
      var key := Derived(newPassword, Salt(n));
      var ok := WriteFile(DekFile, Sealed(key, Dek(r.value)), true);
      if !ok { return Err(WriteFailed); }
      ok := WriteFile(VerifyFile, Sealed(key, Magic), true);
      if !ok { return Err(WriteFailed); }
      ok := WriteFile(SaltFile, Salt(n), true);
      if !ok { return Err(WriteFailed); }
    }
  }
}
