/** The archive walk (`descendZip`) as a plan: the depth-first list of
    entries the callback is handed, each with its joined path, and the
    structural error (opening an entry, decoding a nested archive) that
    ends the walk early, if any. The zip decoder is not modelled: a nested
    archive entry carries the outcome of decoding its bytes. */
module Archive {
  import opened Wrappers
  import opened FilePaths
  import opened Mailbox

  /** The components `filepath.Join` would join, outermost first. */
  type Path = seq<string>

  /** `zip.Reader`: its entries in container order. */
  datatype Reader = Reader(files: seq<File>)

  /** `zip.File`, as far as the walk and the callback look at it: its base
      name (`FileInfo().Name()`), whether it is a directory, the outcome of
      opening it, the outcome of decoding it as a nested archive (consulted
      only when its extension is ".zip") and what scanning it as a mailbox
      yields (consulted only by the callback). */
  datatype File = File(name: string, isDir: bool, openErr: Option<Cause>,
                       archive: Result<Reader, Cause>, mailbox: Mailbox)

  /** The errors `descendZip` returns. */
  datatype WalkError =
    | OpenArchiveFile(cause: Cause)
    | NewZipFromReader(cause: Cause)
    | ProcessingFile(path: Path, err: MailboxError)

  /** One callback invocation: the entry and the path used in its error. */
  datatype Visit = Visit(path: Path, file: File)

  datatype Plan = Plan(visits: seq<Visit>, stop: Option<WalkError>)

  /** Running one plan and then another: a plan that stops hides the rest. */
  function Then(a: Plan, b: Plan): Plan
  {
    if a.stop.Some? then a else Plan(a.visits + b.visits, b.stop)
  }

  /** An entry handed to the callback: not a directory, opened, and not a
      nested archive. */
  predicate IsLeaf(f: File)
  {
    !f.isDir && f.openErr.None? && Ext(f.name) != ".zip"
  }

  /** The visit's path extends `prefix` and ends in the entry's name. */
  predicate Below(v: Visit, prefix: Path)
  {
    |prefix| < |v.path| && v.path[..|prefix|] == prefix && v.path[|v.path| - 1] == v.file.name
  }

  /** A plan whose visits are all leaves under `prefix` and whose stop, if
      any, is structural. */
  ghost predicate WellFormed(p: Plan, prefix: Path)
  {
    && (forall k :: 0 <= k < |p.visits| ==> IsLeaf(p.visits[k].file) && Below(p.visits[k], prefix))
    && (p.stop.Some? ==> !p.stop.value.ProcessingFile?)
  }

  /** One iteration of the loop in `descendZip`. */
  function Step(prefix: Path, f: File): Plan
    decreases f, 0
  {
    if f.isDir then Plan([], None)
    else if f.openErr.Some? then Plan([], Some(OpenArchiveFile(f.openErr.value)))
    else if Ext(f.name) == ".zip" then
      match f.archive
      case Err(c) => Plan([], Some(NewZipFromReader(c)))
      case Ok(z) => Walk(prefix + [f.name], z, 0)
    else Plan([Visit(prefix + [f.name], f)], None)
  }

  /** `descendZip` over the entries of `z` from index i on. */
  function Walk(prefix: Path, z: Reader, i: nat): Plan
    decreases z, |z.files| - i
  {
    if i >= |z.files| then Plan([], None) else Then(Step(prefix, z.files[i]), Walk(prefix, z, i + 1))
  }

  /** Only leaves reach the callback: never a directory, never an entry
      that failed to open, never an entry whose extension is ".zip"; each
      under a path that extends the walk's prefix and ends in the entry's
      name. A walk stops only on a structural error, never on one of the
      callback's. */
  lemma {:induction false} WalkWellFormed(prefix: Path, z: Reader, i: nat)
    ensures WellFormed(Walk(prefix, z, i), prefix)
    decreases z, |z.files| - i
  {
    if i < |z.files| {
      StepWellFormed(prefix, z.files[i]);
      WalkWellFormed(prefix, z, i + 1);
      var a, b := Step(prefix, z.files[i]), Walk(prefix, z, i + 1);
      if a.stop.None? {
        var vs := a.visits + b.visits;
        forall k | 0 <= k < |vs| ensures IsLeaf(vs[k].file) && Below(vs[k], prefix) {
          if k >= |a.visits| { assert vs[k] == b.visits[k - |a.visits|]; }
        }
      }
    }
  }

  lemma {:induction false} StepWellFormed(prefix: Path, f: File)
    ensures WellFormed(Step(prefix, f), prefix)
    decreases f, 0
  {
    if !f.isDir && f.openErr.None? && Ext(f.name) == ".zip" && f.archive.Ok? {
      var inner := prefix + [f.name];
      var p := Walk(inner, f.archive.value, 0);
      WalkWellFormed(inner, f.archive.value, 0);
      forall k | 0 <= k < |p.visits| ensures Below(p.visits[k], prefix) {
        var path := p.visits[k].path;
        assert path[..|inner|] == inner;
        assert path[..|prefix|] == path[..|inner|][..|prefix|];
      }
    }
  }

  lemma ThenAssoc(a: Plan, b: Plan, c: Plan)
    ensures Then(Then(a, b), c) == Then(a, Then(b, c))
  {
    if a.stop.None? && b.stop.None? {
      assert a.visits + b.visits + c.visits == a.visits + (b.visits + c.visits);
    }
  }

  lemma {:induction false} WalkShift(prefix: Path, a: seq<File>, b: seq<File>, j: nat)
    requires j <= |b|
    ensures Walk(prefix, Reader(a + b), |a| + j) == Walk(prefix, Reader(b), j)
    decreases |b| - j
  {
    if j < |b| {
      assert (a + b)[|a| + j] == b[j];
      WalkShift(prefix, a, b, j + 1);
    }
  }

  lemma {:induction false} WalkAppendFrom(prefix: Path, a: seq<File>, b: seq<File>, i: nat)
    requires i <= |a|
    ensures Walk(prefix, Reader(a + b), i) == Then(Walk(prefix, Reader(a), i), Walk(prefix, Reader(b), 0))
    decreases |a| - i
  {
    if i == |a| {
      WalkShift(prefix, a, b, 0);
      assert Then(Plan([], None), Walk(prefix, Reader(b), 0)).visits == Walk(prefix, Reader(b), 0).visits;
    } else {
      assert (a + b)[i] == a[i];
      WalkAppendFrom(prefix, a, b, i + 1);
      ThenAssoc(Step(prefix, a[i]), Walk(prefix, Reader(a), i + 1), Walk(prefix, Reader(b), 0));
    }
  }

  /** Container order: walking two runs of entries one after the other is
      walking the first run and then, unless it stopped, the second. */
  lemma WalkAppend(prefix: Path, a: seq<File>, b: seq<File>)
    ensures Walk(prefix, Reader(a + b), 0) == Then(Walk(prefix, Reader(a), 0), Walk(prefix, Reader(b), 0))
  {
    WalkAppendFrom(prefix, a, b, 0);
  }

  lemma WalkSingle(prefix: Path, f: File)
    ensures Walk(prefix, Reader([f]), 0) == Step(prefix, f)
  {
    var s := Step(prefix, f);
    assert Walk(prefix, Reader([f]), 1) == Plan([], None);
    assert s.stop.None? ==> s.visits + [] == s.visits;
  }

  /** A nested archive is expanded in place: its entries are walked, under
      its own path, exactly where the archive entry sits, and an error of
      the nested walk is the outer walk's error unchanged. */
  lemma WalkNestedInPlace(prefix: Path, pre: seq<File>, f: File, post: seq<File>)
    requires !f.isDir && f.openErr.None? && Ext(f.name) == ".zip" && f.archive.Ok?
    ensures Walk(prefix, Reader(pre + [f] + post), 0) ==
      Then(Walk(prefix, Reader(pre), 0), Then(Walk(prefix + [f.name], f.archive.value, 0), Walk(prefix, Reader(post), 0)))
  {
    WalkAppend(prefix, pre + [f], post);
    WalkAppend(prefix, pre, [f]);
    WalkSingle(prefix, f);
    ThenAssoc(Walk(prefix, Reader(pre), 0), Walk(prefix, Reader([f]), 0), Walk(prefix, Reader(post), 0));
  }

  /** A directory entry is never opened and never handed on: the walk is
      the same without it, whatever opening it would have done. */
  lemma WalkSkipsDirectory(prefix: Path, pre: seq<File>, d: File, post: seq<File>)
    requires d.isDir
    ensures Walk(prefix, Reader(pre + [d] + post), 0) == Walk(prefix, Reader(pre + post), 0)
  {
    WalkAppend(prefix, pre + [d], post);
    WalkAppend(prefix, pre, [d]);
    WalkAppend(prefix, pre, post);
    WalkSingle(prefix, d);
    var w := Walk(prefix, Reader(pre), 0);
    assert w.stop.None? ==> w.visits + [] == w.visits;
  }

  /** The first structural error ends the walk: nothing after the entries
      that produced it is opened or visited. */
  lemma WalkStopsAtFirstError(prefix: Path, a: seq<File>, b: seq<File>)
    requires Walk(prefix, Reader(a), 0).stop.Some?
    ensures Walk(prefix, Reader(a + b), 0) == Walk(prefix, Reader(a), 0)
  {
    WalkAppend(prefix, a, b);
  }

  lemma WalkLeafStep(prefix: Path, z: Reader, i: nat)
    requires i < |z.files| && IsLeaf(z.files[i])
    ensures Walk(prefix, z, i) ==
      Plan([Visit(prefix + [z.files[i].name], z.files[i])] + Walk(prefix, z, i + 1).visits, Walk(prefix, z, i + 1).stop)
  {
  }

  /** One visit per entry, in order, each under its own name. */
  function LeafVisits(prefix: Path, fs: seq<File>): seq<Visit>
  {
    if fs == [] then [] else [Visit(prefix + [fs[0].name], fs[0])] + LeafVisits(prefix, fs[1..])
  }

  /** A container of leaves only is visited entry by entry, in order, each
      under its own name, and the walk ends without error. */
  lemma {:induction false} WalkFlat(prefix: Path, z: Reader, i: nat)
    requires i <= |z.files|
    requires forall k :: i <= k < |z.files| ==> IsLeaf(z.files[k])
    ensures Walk(prefix, z, i) == Plan(LeafVisits(prefix, z.files[i..]), None)
    decreases |z.files| - i
  {
    if i < |z.files| {
      WalkFlat(prefix, z, i + 1);
      WalkLeafStep(prefix, z, i);
      assert z.files[i..][0] == z.files[i] && z.files[i..][1..] == z.files[i + 1..];
    }
  }

  /** The entries a list of visits hands to the callback, without paths. */
  function Files(vs: seq<Visit>): (fs: seq<File>)
    ensures |fs| == |vs| && forall k :: 0 <= k < |vs| ==> fs[k] == vs[k].file
  {
    if vs == [] then [] else [vs[0].file] + Files(vs[1..])
  }

  /** Two plans that hand the same entries to the callback in the same
      order and stop the same way; they may differ only in paths. */
  predicate SameEntries(a: Plan, b: Plan)
  {
    Files(a.visits) == Files(b.visits) && a.stop == b.stop
  }

  lemma FilesAppend(a: seq<Visit>, b: seq<Visit>)
    ensures Files(a + b) == Files(a) + Files(b)
  {
    var l, r := Files(a + b), Files(a) + Files(b);
    assert forall k :: 0 <= k < |l| ==> l[k] == (a + b)[k].file == r[k];
  }

  lemma ThenSameEntries(a: Plan, a': Plan, b: Plan, b': Plan)
    requires SameEntries(a, a') && SameEntries(b, b')
    ensures SameEntries(Then(a, b), Then(a', b'))
  {
    if a.stop.None? {
      FilesAppend(a.visits, b.visits);
      FilesAppend(a'.visits, b'.visits);
    }
  }

  /** Reference definition of the entries a walk hands to the callback:
      every entry that is neither a directory nor a ".zip" entry, in
      container order, with each decodable ".zip" entry replaced by the
      leaves of its own entries. */
  function LeavesOf(z: Reader, i: nat): seq<File>
    decreases z, |z.files| - i
  {
    if i >= |z.files| then [] else LeavesOfEntry(z.files[i]) + LeavesOf(z, i + 1)
  }

  function LeavesOfEntry(f: File): seq<File>
    decreases f, 0
  {
    if f.isDir then []
    else if Ext(f.name) == ".zip" then (if f.archive.Ok? then LeavesOf(f.archive.value, 0) else [])
    else [f]
  }

  /** An archive the walk meets no structural error in: every entry that is
      not a directory opens, and every ".zip" entry decodes into a sound
      archive. */
  predicate Sound(z: Reader, i: nat)
    decreases z, |z.files| - i
  {
    i >= |z.files| || (SoundEntry(z.files[i]) && Sound(z, i + 1))
  }

  predicate SoundEntry(f: File)
    decreases f, 0
  {
    f.isDir || (f.openErr.None? && (Ext(f.name) == ".zip" ==> f.archive.Ok? && Sound(f.archive.value, 0)))
  }

  /** The walk ends without error exactly on a sound archive, and then hands
      the callback exactly its leaves, depth first, in container order. */
  lemma {:induction false} WalkVisitsLeaves(p: Path, z: Reader, i: nat)
    ensures Walk(p, z, i).stop.None? <==> Sound(z, i)
    ensures Sound(z, i) ==> Files(Walk(p, z, i).visits) == LeavesOf(z, i)
    decreases z, |z.files| - i
  {
    if i < |z.files| {
      StepVisitsLeaves(p, z.files[i]);
      WalkVisitsLeaves(p, z, i + 1);
      FilesAppend(Step(p, z.files[i]).visits, Walk(p, z, i + 1).visits);
    }
  }

  lemma {:induction false} StepVisitsLeaves(p: Path, f: File)
    ensures Step(p, f).stop.None? <==> SoundEntry(f)
    ensures SoundEntry(f) ==> Files(Step(p, f).visits) == LeavesOfEntry(f)
    decreases f, 0
  {
    if !f.isDir && f.openErr.None? && Ext(f.name) == ".zip" && f.archive.Ok? {
      WalkVisitsLeaves(p + [f.name], f.archive.value, 0);
    }
  }

  /** Where a container sits changes neither which entries are visited nor
      their order nor how the walk stops; only the paths differ. */
  lemma {:induction false} WalkIgnoresPrefix(p: Path, q: Path, z: Reader, i: nat)
    ensures SameEntries(Walk(p, z, i), Walk(q, z, i))
    decreases z, |z.files| - i
  {
    if i < |z.files| {
      StepIgnoresPrefix(p, q, z.files[i]);
      WalkIgnoresPrefix(p, q, z, i + 1);
      ThenSameEntries(Step(p, z.files[i]), Step(q, z.files[i]), Walk(p, z, i + 1), Walk(q, z, i + 1));
    }
  }

  lemma {:induction false} StepIgnoresPrefix(p: Path, q: Path, f: File)
    ensures SameEntries(Step(p, f), Step(q, f))
    decreases f, 0
  {
    if !f.isDir && f.openErr.None? && Ext(f.name) == ".zip" && f.archive.Ok? {
      WalkIgnoresPrefix(p + [f.name], q + [f.name], f.archive.value, 0);
    }
  }

  /** Nesting does not change what is visited: an archive entry that opens
      and decodes, and the run of its own entries put in its place, hand the
      same entries to the callback in the same order and stop the same way;
      only the paths differ. */
  lemma WalkFlattensNesting(prefix: Path, pre: seq<File>, f: File, post: seq<File>)
    requires !f.isDir && f.openErr.None? && Ext(f.name) == ".zip" && f.archive.Ok?
    ensures SameEntries(Walk(prefix, Reader(pre + [f] + post), 0), Walk(prefix, Reader(pre + f.archive.value.files + post), 0))
  {
    var inner := f.archive.value;
    var a, c := Walk(prefix, Reader(pre), 0), Walk(prefix, Reader(post), 0);
    var deep, flat := Walk(prefix + [f.name], inner, 0), Walk(prefix, inner, 0);
    WalkNestedInPlace(prefix, pre, f, post);
    WalkAppend(prefix, pre + inner.files, post);
    WalkAppend(prefix, pre, inner.files);
    assert Reader(inner.files) == inner;
    ThenAssoc(a, flat, c);
    WalkIgnoresPrefix(prefix + [f.name], prefix, inner, 0);
    ThenSameEntries(deep, flat, c, c);
    ThenSameEntries(a, a, Then(deep, c), Then(flat, c));
  }
}
