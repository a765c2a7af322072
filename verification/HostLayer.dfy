/**
 * Installing an appliance host bundle with an undo log, and undoing it
 * (replace, apply and restore_host,
 * appliance/host/root/opt/rightsizer/bin/rightsizer-host). apply may be cut off
 * before any primitive step; renames and appending one line to the log are
 * atomic, copies are not.
 */
module HostLayer {
  import opened Numbers

  datatype File = File(content: string, mode: string)

  /** A line of the manifest. */
  datatype Line = Blank | Install(mode: string, path: string) | Unit(allowed: bool) | Unknown

  /** A line of $prev/list. */
  datatype Undo = Restore(path: string) | Remove(path: string)

  datatype Outcome = Applied | Refused | Stopped

  const TEMP := ".rightsizer-new"
  const BIN := "/opt/rightsizer/bin/"
  const UNIT := "/etc/systemd/system/rightsizer"
  const UNIT_KINDS := [".service", ".path", ".timer"]
  const ETC := "/etc/"
  const CONFS := [
    ETC + "systemd/system/vmtoolsd.service.d/10-rightsizer.conf", ETC + "sysctl.d/90-rightsizer.conf",
    ETC + "systemd/logind.conf.d/10-rightsizer.conf", ETC + "docker/daemon.json"]

  // ---------------------------------------------------------------- allowed paths

  predicate IsName(s: string) {
    forall i :: 0 <= i < |s| ==> 'a' <= s[i] <= 'z' || '0' <= s[i] <= '9' || s[i] == '-'
  }

  predicate EndsWith(s: string, suffix: string) {
    |suffix| <= |s| && s[|s| - |suffix|..] == suffix
  }

  predicate UnitPath(p: string, kind: string) {
    EndsWith(p, kind) && |UNIT| + |kind| <= |p| && IsName(p[|UNIT|..|p| - |kind|])
  }

  /** The HOST_PATHS pattern. */
  predicate Allowed(p: string) {
    || (BIN <= p && |p| > |BIN| && IsName(p[|BIN|..]))
    || (UNIT <= p && exists k :: 0 <= k < |UNIT_KINDS| && UnitPath(p, UNIT_KINDS[k]))
    || p in CONFS
  }

  /** As the pattern reads: a name in the bin directory, one of rightsizer's units, or one of four files. */
  lemma AllowedIff(p: string)
    ensures Allowed(p) <==>
      || (exists name :: name != "" && IsName(name) && p == "/opt/rightsizer/bin/" + name)
      || IsUnit(p, ".service") || IsUnit(p, ".path") || IsUnit(p, ".timer")
      || p in CONFS
  {
    UnitIff(p, ".service");
    UnitIff(p, ".path");
    UnitIff(p, ".timer");
    BinIff(p);
    assert UNIT_KINDS[0] == ".service" && UNIT_KINDS[1] == ".path" && UNIT_KINDS[2] == ".timer";
    hide UnitPath, IsName, IsUnit, EndsWith;
  }

  ghost predicate IsUnit(p: string, kind: string) {
    exists name :: IsName(name) && p == "/etc/systemd/system/rightsizer" + name + kind
  }

  lemma UnitIff(p: string, kind: string)
    ensures UNIT <= p && UnitPath(p, kind) <==> IsUnit(p, kind)
  {
    if UNIT <= p && UnitPath(p, kind) {
      var name := p[|UNIT|..|p| - |kind|];
      assert p == UNIT + name + kind;
    }
    if IsUnit(p, kind) {
      var name :| IsName(name) && p == "/etc/systemd/system/rightsizer" + name + kind;
      assert p[|UNIT|..|p| - |kind|] == name;
    }
  }

  lemma BinIff(p: string)
    ensures BIN <= p && |p| > |BIN| && IsName(p[|BIN|..])
      <==> exists name :: name != "" && IsName(name) && p == "/opt/rightsizer/bin/" + name
  {
    if BIN <= p && |p| > |BIN| && IsName(p[|BIN|..]) {
      assert p == "/opt/rightsizer/bin/" + p[|BIN|..];
    }
    if name :| name != "" && IsName(name) && p == "/opt/rightsizer/bin/" + name {
      assert p[|BIN|..] == name;
    }
  }

  predicate AllowedMode(mode: string) {
    mode == "0644" || mode == "0755"
  }

  /** The name a file is written under before it is renamed into place. */
  function Temp(path: string): string {
    path + TEMP
  }

  ghost predicate IsTemp(path: string) {
    exists p :: Allowed(p) && path == Temp(p)
  }

  lemma ConfShape(p: string)
    requires p in CONFS
    ensures |p| > 1 && p[1] == 'e' && p[|p| - 1] in {'f', 'n'}
  {
    var k :| 0 <= k < |CONFS| && CONFS[k] == p;
    assert CONFS[0][1] == CONFS[1][1] == CONFS[2][1] == CONFS[3][1] == 'e';
  }

  lemma UnitShape(p: string)
    requires UNIT <= p
    requires exists k :: 0 <= k < |UNIT_KINDS| && UnitPath(p, UNIT_KINDS[k])
    ensures |p| > 1 && p[1] == 'e' && p[|p| - 1] in {'e', 'h', 'r'}
  {
    var k :| 0 <= k < |UNIT_KINDS| && UnitPath(p, UNIT_KINDS[k]);
    var suffix := UNIT_KINDS[k];
    assert p[|p| - |suffix|..][|suffix| - 1] == p[|p| - 1];
    assert p[1] == UNIT[1];
  }

  /** A path is in the bin directory, or below /etc with one of five last letters. */
  lemma AllowedShape(p: string)
    requires Allowed(p)
    ensures |p| > 1
    ensures (BIN <= p && |p| > |BIN| && IsName(p[|BIN|..])) || (p[1] == 'e' && p[|p| - 1] in {'e', 'h', 'r', 'f', 'n'})
  {
    hide UnitPath, IsName;
    if p in CONFS {
      ConfShape(p);
    } else if UNIT <= p && exists k :: 0 <= k < |UNIT_KINDS| && UnitPath(p, UNIT_KINDS[k]) {
      UnitShape(p);
    }
  }

  /** No temporary name is a path a manifest may install. */
  lemma TempNotAllowed(p: string)
    requires Allowed(p)
    ensures !Allowed(Temp(p))
  {
    hide Allowed;
    var t := Temp(p);
    AllowedShape(p);
    assert t[|p|] == '.' && t[|t| - 1] == 'w' && t[1] == p[1];
    assert BIN <= t && |BIN| <= |p| ==> t[|BIN|..][|p| - |BIN|] == '.';
    if Allowed(t) {
      AllowedShape(t);
    }
  }

  lemma AllowedNotTemp(p: string)
    requires Allowed(p)
    ensures !IsTemp(p)
  {
    hide Allowed;
    if q :| Allowed(q) && p == Temp(q) {
      TempNotAllowed(q);
    }
  }

  /** Allowed paths are no temporary names. */
  lemma AllowedStay(was: map<string, File>, fs: map<string, File>, b: string)
    requires forall p :: !IsTemp(p) && p != b ==> Same(fs, was, p)
    ensures forall p :: Allowed(p) && p != b ==> Same(fs, was, p)
  {
    hide Allowed, IsTemp, Same;
    forall p | Allowed(p) && p != b
      ensures Same(fs, was, p)
    {
      AllowedNotTemp(p);
    }
  }

  /** The file at p has the content the bundle gives it. */
  predicate Matches(fs: map<string, File>, bundle: map<string, File>, p: string) {
    p in fs && p in bundle && fs[p].content == bundle[p].content
  }

  /** The first n lines are done: their files are in place. */
  ghost predicate Placed(fs: map<string, File>, bundle: map<string, File>, lines: seq<Line>, n: nat)
    requires n <= |lines|
  {
    forall k :: 0 <= k < n && lines[k].Install? ==> Allowed(lines[k].path) && Matches(fs, bundle, lines[k].path)
  }

  /** A line that apply does not refuse. */
  predicate Acceptable(line: Line, bundle: map<string, File>) {
    match line
    case Blank => true
    case Install(mode, path) => Allowed(path) && (mode == "0644" || mode == "0755") && path in bundle
    case Unit(allowed) => allowed
    case Unknown => false
  }

  /** The first of n lines that installs a path. */
  function FirstFor(lines: seq<Line>, n: nat, p: string): (k: Option<nat>)
    requires n <= |lines|
    ensures k.Some? ==> k.value < n && lines[k.value].Install? && lines[k.value].path == p
    ensures forall j :: 0 <= j < n && (k.Some? ==> j < k.value) ==> !(lines[j].Install? && lines[j].path == p)
  {
    if n == 0 then None
    else
      var k := FirstFor(lines, n - 1, p);
      if k.None? && lines[n - 1].Install? && lines[n - 1].path == p then Some(n - 1) else k
  }

  /**
   * What n lines make of a path: a file whose content was already that of the bundle
   * stays as it was, any other gets the content and the mode of its first line, and
   * what no line names is not touched.
   */
  ghost predicate LeftAt(was: map<string, File>, fs: map<string, File>, bundle: map<string, File>, lines: seq<Line>, n: nat, p: string)
    requires n <= |lines|
  {
    match FirstFor(lines, n, p)
    case None => Same(fs, was, p)
    case Some(k) =>
      && p in bundle
      && if p in was && was[p].content == bundle[p].content then Same(fs, was, p)
         else p in fs && fs[p] == File(bundle[p].content, lines[k].mode)
  }

  /** ... and so for every path but leftover temporary files. */
  ghost predicate Left(was: map<string, File>, fs: map<string, File>, bundle: map<string, File>, lines: seq<Line>, n: nat)
    requires n <= |lines|
  {
    forall p :: !IsTemp(p) ==> LeftAt(was, fs, bundle, lines, n, p)
  }

  lemma NothingLeft(was: map<string, File>, bundle: map<string, File>, lines: seq<Line>)
    ensures Left(was, was, bundle, lines, 0)
  {
    hide IsTemp;
  }

  /** A line that installs nothing leaves everything as it is. */
  lemma LeftAsIs(was: map<string, File>, fs: map<string, File>, bundle: map<string, File>, lines: seq<Line>, n: nat)
    requires n < |lines| && !lines[n].Install? && Left(was, fs, bundle, lines, n)
    ensures Left(was, fs, bundle, lines, n + 1)
  {
    hide IsTemp;
    forall p | !IsTemp(p)
      ensures LeftAt(was, fs, bundle, lines, n + 1, p)
    {
      assert LeftAt(was, fs, bundle, lines, n, p);
    }
  }

  /** A line that installs a path, which has its content already or gets it with the line's mode. */
  lemma LeftInstalled(was: map<string, File>, before: map<string, File>, fs: map<string, File>, bundle: map<string, File>,
                      lines: seq<Line>, n: nat)
    requires n < |lines| && lines[n].Install? && lines[n].path in bundle && Left(was, before, bundle, lines, n)
    requires !IsTemp(lines[n].path)
    requires forall p :: p != lines[n].path && !IsTemp(p) ==> Same(fs, before, p)
    requires var b := lines[n].path;
      if b in before && before[b].content == bundle[b].content then Same(fs, before, b)
      else b in fs && fs[b] == File(bundle[b].content, lines[n].mode)
    ensures Left(was, fs, bundle, lines, n + 1)
  {
    hide IsTemp;
    forall p | !IsTemp(p)
      ensures LeftAt(was, fs, bundle, lines, n + 1, p)
    {
      assert LeftAt(was, before, bundle, lines, n, p);
    }
  }

  // ------------------------------------------------------------- what undoing does

  /** The host's files and the copies saved under $prev/files. */
  datatype Disk = Disk(fs: map<string, File>, saved: map<string, File>)

  function Undone(d: Disk, e: Undo): Disk {
    match e
    case Restore(p) => if p in d.saved then Disk(d.fs[p := d.saved[p]], d.saved - {p}) else d
    case Remove(p) => Disk(d.fs - {p}, d.saved)
  }

  /** restore_host after the first m lines of the log. */
  function UndoTo(d: Disk, list: seq<Undo>, m: nat): Disk
    requires m <= |list|
  {
    if m == 0 then d else Undone(UndoTo(d, list, m - 1), list[m - 1])
  }

  /** Both hold the same file at p, or neither holds one. */
  ghost predicate Same(a: map<string, File>, b: map<string, File>, p: string) {
    (p in a <==> p in b) && (p in a ==> a[p] == b[p])
  }

  ghost predicate Logged(list: seq<Undo>, p: string) {
    Restore(p) in list || Remove(p) in list
  }

  /**
   * The log can bring back `before`: a path to restore was there, and its old file
   * is still saved or already back; a path to remove was not; any other path is
   * untouched, apart from leftover temporary files.
   */
  ghost predicate Undoable(before: map<string, File>, d: Disk, list: seq<Undo>) {
    && (forall p :: Restore(p) in list ==> p in before && if p in d.saved then d.saved[p] == before[p] else Same(d.fs, before, p))
    && (forall p :: Remove(p) in list ==> p !in before)
    && (forall p :: !Logged(list, p) && !IsTemp(p) ==> Same(d.fs, before, p))
  }

  /** Saving a copy of an unlogged path, whole or torn, breaks nothing. */
  lemma SavingKeepsUndoable(before: map<string, File>, d: Disk, list: seq<Undo>, b: string, saved: map<string, File>)
    requires Undoable(before, d, list) && !Logged(list, b)
    requires forall p :: p != b ==> Same(saved, d.saved, p)
    ensures Undoable(before, Disk(d.fs, saved), list)
  {
    hide IsTemp;
    forall p | Restore(p) in list
      ensures p in before && if p in saved then saved[p] == before[p] else Same(d.fs, before, p)
    {
      assert p != b && Same(saved, d.saved, p);
    }
  }

  /** Logging an untouched path once its copy is saved. */
  lemma LoggingKeepsUndoable(before: map<string, File>, d: Disk, list: seq<Undo>, b: string)
    requires Undoable(before, d, list) && !Logged(list, b) && !IsTemp(b)
    requires b in d.fs ==> b in d.saved && d.saved[b] == d.fs[b]
    ensures Undoable(before, d, list + [if b in d.fs then Restore(b) else Remove(b)])
  {
    hide IsTemp;
    var more := list + [if b in d.fs then Restore(b) else Remove(b)];
    forall p
      ensures Restore(p) in more ==> p in before && if p in d.saved then d.saved[p] == before[p] else Same(d.fs, before, p)
      ensures Remove(p) in more ==> p !in before
      ensures !Logged(more, p) && !IsTemp(p) ==> Same(d.fs, before, p)
    {
      assert Restore(p) in list ==> Restore(p) in more;
      assert Remove(p) in list ==> Remove(p) in more;
    }
  }

  /** Writing a logged path and its temporary file breaks nothing. */
  lemma WritingKeepsUndoable(before: map<string, File>, d: Disk, list: seq<Undo>, b: string, fs: map<string, File>)
    requires Undoable(before, d, list) && Logged(list, b) && IsTemp(Temp(b))
    requires Restore(b) in list ==> b in d.saved
    requires !Logged(list, Temp(b))
    requires forall p :: p != b && p != Temp(b) ==> Same(fs, d.fs, p)
    ensures Undoable(before, Disk(fs, d.saved), list)
  {
    hide IsTemp;
    forall p | p != b && p != Temp(b)
      ensures Same(d.fs, before, p) ==> Same(fs, before, p)
    {
      assert Same(fs, d.fs, p);
    }
  }

  lemma UndoneStaysUndoable(before: map<string, File>, d: Disk, list: seq<Undo>, e: Undo)
    requires Undoable(before, d, list) && e in list
    ensures Undoable(before, Undone(d, e), list)
    ensures Same(Undone(d, e).fs, before, e.path)
    ensures forall p :: Same(d.fs, before, p) ==> Same(Undone(d, e).fs, before, p)
  {
    hide IsTemp;
  }

  /** Undoing may be cut off anywhere: what remains can still be undone. */
  lemma {:induction false} UndoToStaysUndoable(before: map<string, File>, d: Disk, list: seq<Undo>, m: nat)
    requires Undoable(before, d, list) && m <= |list|
    ensures Undoable(before, UndoTo(d, list, m), list)
    ensures forall k :: 0 <= k < m ==> Same(UndoTo(d, list, m).fs, before, list[k].path)
    ensures forall p :: Same(d.fs, before, p) ==> Same(UndoTo(d, list, m).fs, before, p)
  {
    hide Undoable, Undone, Same;
    if m > 0 {
      UndoToStaysUndoable(before, d, list, m - 1);
      UndoneStaysUndoable(before, UndoTo(d, list, m - 1), list, list[m - 1]);
    }
  }

  /** A whole pass over the log brings every path back to its previous content or absence. */
  lemma UndoRestoresEverything(before: map<string, File>, d: Disk, list: seq<Undo>)
    requires Undoable(before, d, list)
    ensures forall p :: !IsTemp(p) ==> Same(UndoTo(d, list, |list|).fs, before, p)
  {
    UndoToStaysUndoable(before, d, list, |list|);
    hide Same, IsTemp, UndoTo;
    forall p | !IsTemp(p)
      ensures Same(UndoTo(d, list, |list|).fs, before, p)
    {
      if Logged(list, p) {
        var e := if Restore(p) in list then Restore(p) else Remove(p);
        var k :| 0 <= k < |list| && list[k] == e;
      }
    }
  }

  // ------------------------------------------------------------------- the host

  class Host {
    var fs: map<string, File>
    /** $prev/list exists. */
    var listed: bool
    var list: seq<Undo>
    var saved: map<string, File>
    /** How many more primitive steps run before the machine stops. */
    var budget: nat

    function OnDisk(): Disk
      reads this
    {
      Disk(fs, saved)
    }

    /** Spends one step; false when the run is cut off instead. */
    method Step() returns (alive: bool)
      modifies `budget
      ensures alive <==> old(budget) > 0
      ensures budget == if alive then old(budget) - 1 else 0
    {
      alive := budget > 0;
      if alive {
        budget := budget - 1;
      }
    }

    /** Installs a file by renaming a finished copy into place. */
    method Replace(src: File, dst: string, mode: string, torn: string) returns (alive: bool)
      modifies `fs, `budget
      ensures forall p :: p != dst && p != Temp(dst) ==> Same(fs, old(fs), p)
      ensures alive ==> dst in fs && fs[dst] == File(src.content, mode)
      ensures !alive ==> Same(fs, old(fs), dst) && budget == 0
    {
      var tmp := Temp(dst);
      alive := Step();
      if !alive { return; }
      fs := fs[tmp := File(torn, "0600")];
      alive := Step();
      if !alive { return; }
      fs := fs[tmp := File(src.content, "0600")];
      alive := Step();
      if !alive { return; }
      fs := fs[tmp := File(src.content, mode)];
      alive := Step();
      if !alive { return; }
      fs := fs[dst := fs[tmp]] - {tmp};
    }

    /** Saves and logs what a bundle file is about to replace. */
    method Record(b: string, torn: string) returns (alive: bool)
      modifies `saved, `list, `budget
      ensures list == if alive then old(list) + [if b in fs then Restore(b) else Remove(b)] else old(list)
      ensures !alive ==> budget == 0
      ensures forall p :: p != b ==> Same(saved, old(saved), p)
      ensures alive && b in fs ==> b in saved && saved[b] == fs[b]
    {
      if b in fs {
        alive := Step();
        if !alive { return; }
        saved := saved[b := File(torn, "0600")];
        alive := Step();
        if !alive { return; }
        saved := saved[b := fs[b]];
        alive := Step();
        if !alive { return; }
        list := list + [Restore(b)];
      } else {
        alive := Step();
        if !alive { return; }
        list := list + [Remove(b)];
      }
    }

    /** Every logged path now holds its bundle file, so a second manifest line for it changes nothing. */
    ghost predicate Installed(bundle: map<string, File>)
      reads this
    {
      forall e :: e in list ==> Allowed(e.path) && Matches(fs, bundle, e.path)
    }

    /** One allowed file line of the manifest. */
    method InstallFile(b: string, mode: string, bundle: map<string, File>, torn: string, ghost before: map<string, File>)
      returns (alive: bool)
      requires Allowed(b) && b in bundle
      requires Undoable(before, OnDisk(), list) && Installed(bundle)
      modifies `fs, `saved, `list, `budget
      ensures Undoable(before, OnDisk(), list)
      ensures alive ==> Installed(bundle) && Matches(fs, bundle, b)
      ensures alive ==> forall p :: !IsTemp(p) && p != b ==> Same(fs, old(fs), p)
      ensures alive ==>
        if b in old(fs) && old(fs[b]).content == bundle[b].content then fs == old(fs)
        else b in fs && fs[b] == File(bundle[b].content, mode)
      ensures !alive ==> budget == 0
    {
      hide Allowed;
      if b in fs && fs[b].content == bundle[b].content {
        return true;
      }
      TempNotAllowed(b);
      AllowedNotTemp(b);
      assert !Logged(list, b);
      assert IsTemp(Temp(b));
      ghost var d, was := OnDisk(), list;
      alive := Record(b, torn);
      SavingKeepsUndoable(before, d, was, b, saved);
      if !alive { return; }
      LoggingKeepsUndoable(before, OnDisk(), was, b);
      d := OnDisk();
      alive := Replace(bundle[b], b, mode, torn);
      assert forall e :: e in list ==> e in was || e.path == b;
      forall e | e in was
        ensures Matches(fs, bundle, e.path) && e.path != Temp(b)
      {
        assert e.path != b && Same(fs, d.fs, e.path);
      }
      WritingKeepsUndoable(before, d, list, b, fs);
    }

    /** The first n lines are applied, and can be undone. */
    ghost predicate Done(before: map<string, File>, bundle: map<string, File>, lines: seq<Line>, n: nat)
      requires n <= |lines|
      reads this
    {
      && Undoable(before, OnDisk(), list) && Installed(bundle)
      && Placed(fs, bundle, lines, n) && Left(before, fs, bundle, lines, n)
      && forall k :: 0 <= k < n ==> Acceptable(lines[k], bundle)
    }

    lemma NothingDone(bundle: map<string, File>, lines: seq<Line>)
      requires list == [] && saved == map[]
      ensures Done(fs, bundle, lines, 0)
    {
      NothingLeft(fs, bundle, lines);
    }

    lemma DoneIs(before: map<string, File>, bundle: map<string, File>, lines: seq<Line>, n: nat)
      requires n <= |lines| && Done(before, bundle, lines, n)
      ensures Undoable(before, OnDisk(), list) && Placed(fs, bundle, lines, n) && Left(before, fs, bundle, lines, n)
      ensures forall k :: 0 <= k < n ==> Acceptable(lines[k], bundle)
    {
    }

    /** The body of the loop over the manifest. */
    method ApplyLine(lines: seq<Line>, i: nat, bundle: map<string, File>, torn: string, ghost before: map<string, File>)
      returns (outcome: Outcome)
      requires i < |lines| && Done(before, bundle, lines, i)
      modifies `fs, `saved, `list, `budget
      ensures Undoable(before, OnDisk(), list)
      ensures match outcome
        case Applied => Done(before, bundle, lines, i + 1)
        case Refused => !Acceptable(lines[i], bundle)
        case Stopped => budget == 0
    {
      hide Allowed, Undoable, Installed, Left, IsTemp;
      match lines[i]
      case Install(mode, b) =>
        if !Allowed(b) || !AllowedMode(mode) || b !in bundle {
          return Refused;
        }
        ghost var was := fs;
        var alive := InstallFile(b, mode, bundle, torn, before);
        if !alive { return Stopped; }
        AllowedNotTemp(b);
        AllowedStay(was, fs, b);
        LeftInstalled(before, was, fs, bundle, lines, i);
        return Applied;
      case Unit(ok) =>
        if !ok { return Refused; }
        LeftAsIs(before, fs, bundle, lines, i);
        return Applied;
      case Blank =>
        LeftAsIs(before, fs, bundle, lines, i);
        return Applied;
      case Unknown =>
        return Refused;
    }

    /**
     * Cut off anywhere, the log can undo what was done; when it returns Applied,
     * every file line of the manifest is installed.
     */
    method Apply(manifest: Option<seq<Line>>, bundle: map<string, File>, torn: string) returns (outcome: Outcome)
      modifies this
      ensures !old(listed) ==> if listed then Undoable(old(fs), OnDisk(), list) else fs == old(fs)
      ensures outcome.Stopped? ==> budget == 0
      ensures outcome.Applied? ==> manifest.Some? && Placed(fs, bundle, manifest.value, |manifest.value|)
      ensures outcome.Applied? ==> Left(old(fs), fs, bundle, manifest.value, |manifest.value|)
      ensures outcome.Applied? ==> forall k :: 0 <= k < |manifest.value| ==> Acceptable(manifest.value[k], bundle)
      ensures outcome.Refused? ==> manifest.None? || exists k :: 0 <= k < |manifest.value| && !Acceptable(manifest.value[k], bundle)
    {
      hide *;
      if manifest.None? {
        return Refused;
      }
      var alive := Step();
      if !alive { return Stopped; }
      listed, list, saved := false, [], map[];
      alive := Step();
      if !alive { return Stopped; }
      listed := true;
      NothingDone(bundle, manifest.value);
      for i := 0 to |manifest.value|
        invariant listed && Done(old(fs), bundle, manifest.value, i)
      {
        DoneIs(old(fs), bundle, manifest.value, i);
        outcome := ApplyLine(manifest.value, i, bundle, torn, old(fs));
        if !outcome.Applied? {
          return;
        }
      }
      DoneIs(old(fs), bundle, manifest.value, |manifest.value|);
      return Applied;
    }

    /** restore_host; it may be cut off too, and then run again. */
    method RestoreHost() returns (alive: bool, ghost m: nat)
      modifies `fs, `saved, `budget
      ensures !listed ==> alive && fs == old(fs) && saved == old(saved)
      ensures listed ==> m <= |list| && OnDisk() == UndoTo(old(OnDisk()), list, m) && (alive ==> m == |list|)
    {
      m := 0;
      if !listed {
        return true, 0;
      }
      for i := 0 to |list|
        invariant OnDisk() == UndoTo(old(OnDisk()), list, i)
      {
        m := i;
        alive := Step();
        if !alive { return; }
        match list[i]
        case Restore(p) =>
          if p in saved {
            fs, saved := fs[p := saved[p]], saved - {p};
          }
        case Remove(p) =>
          fs := fs - {p};
      }
      return true, |list|;
    }

    /**
     * What upgrade does: apply from a clean $prev, and undo when that is refused or
     * cut off, or when the new version then does not start.
     */
    method Upgrade(manifest: Option<seq<Line>>, bundle: map<string, File>, torn: string, starts: bool, steps: nat, patience: nat)
      returns (outcome: Outcome, undone: bool)
      modifies this
      ensures outcome.Applied? && starts ==> manifest.Some? && Left(old(fs), fs, bundle, manifest.value, |manifest.value|)
      ensures outcome.Applied? && starts ==> manifest.Some? && Placed(fs, bundle, manifest.value, |manifest.value|) && !listed
      ensures !(outcome.Applied? && starts) && undone ==> forall p :: !IsTemp(p) ==> Same(fs, old(fs), p)
      ensures !(outcome.Applied? && starts) && listed ==> Undoable(old(fs), OnDisk(), list)
    {
      listed, list, saved := false, [], map[];
      budget := steps;
      outcome := Apply(manifest, bundle, torn);
      undone := false;
      if outcome.Applied? && starts {
        listed, list, saved := false, [], map[];
        return;
      }
      budget := patience;
      ghost var d, m := OnDisk(), 0;
      undone, m := RestoreHost();
      if listed {
        UndoToStaysUndoable(old(fs), d, list, m);
        UndoRestoresEverything(old(fs), d, list);
      }
    }
  }
}
