/** The arithmetic on Unix modes, against the octal digits it is meant to pick out. */
module ModeBits {
  import opened Common
  import SourceTree
  import SourceExtraction
  import UpdateArchive
  import UpdateSteps
  import WorkspaceFiles

  /** A mode by its digits: file type, special bits, and permissions of user, group and others. */
  datatype Digits = Digits(kind: nat, special: nat, user: nat, group: nat, others: nat)

  predicate Valid(d: Digits) {
    d.kind < 16 && d.special < 8 && d.user < 8 && d.group < 8 && d.others < 8
  }

  function Permissions(d: Digits): nat {
    (d.user * 8 + d.group) * 8 + d.others
  }

  function Mode(d: Digits): nat {
    (d.kind * 8 + d.special) * 512 + Permissions(d)
  }

  /** Some execute bit is set. */
  predicate Runs(d: Digits) {
    d.user % 2 == 1 || d.group % 2 == 1 || d.others % 2 == 1
  }

  lemma PermissionDigits(d: Digits)
    requires Valid(d)
    ensures Permissions(d) < 512 && Mode(d) % 512 == Permissions(d) && Mode(d) / 512 == d.kind * 8 + d.special
    ensures Mode(d) / 0x1000 == d.kind
  {
  }

  lemma Parity(n: nat, half: nat, digit: nat)
    requires n == half * 2 + digit
    ensures n % 2 == digit % 2
  {
  }

  lemma ExecuteBits(high: nat, d: Digits)
    requires Valid(d)
    ensures
      var n := high * 512 + Permissions(d);
      n % 2 == d.others % 2 && n / 8 % 2 == d.group % 2 && n / 64 % 2 == d.user % 2
  {
    var n := high * 512 + Permissions(d);
    assert n / 8 == high * 64 + d.user * 8 + d.group;
    assert n / 64 == high * 8 + d.user;
    Parity(n, high * 256 + d.user * 32 + d.group * 4, d.others);
    Parity(n / 8, high * 32 + d.user * 4, d.group);
    Parity(n / 64, high * 4, d.user);
  }

  /** An archived entry's type must fit what it is; zero fits everything. */
  lemma AcceptedKinds(d: Digits, isDir: bool, isSymlink: bool)
    requires Valid(d)
    ensures SourceTree.KindAccepted(Some(Mode(d)), isDir, isSymlink) <==>
            d.kind == 0 || d.kind == (if isDir then 0x4 else if isSymlink then 0xA else 0x8)
  {
    PermissionDigits(d);
  }

  /** Extraction keeps the nine permission bits and nothing else. */
  lemma ExtractedPermissions(d: Digits)
    requires Valid(d)
    ensures SourceExtraction.Permissions(Some(Mode(d))) == Some(Permissions(d))
  {
    PermissionDigits(d);
  }

  /** An update installs regular files without execute bits only. */
  lemma UpdatableEntries(e: UpdateArchive.Entry, d: Digits)
    requires Valid(d) && e.mode == Some(Mode(d))
    ensures UpdateArchive.RegularEntry(e) <==> !e.isDir && !e.isSymlink && (d.kind == 0 || d.kind == 8) && !Runs(d)
  {
    PermissionDigits(d);
    ExecuteBits(d.kind * 8 + d.special, d);
  }

  /** A target counts as executable by any of the three execute bits. */
  lemma ExecutableTargets(d: Digits)
    requires Valid(d)
    ensures Permissions(d) < 512 && (UpdateSteps.Executable(Permissions(d)) <==> Runs(d))
  {
    PermissionDigits(d);
    ExecuteBits(0, d);
  }
}
