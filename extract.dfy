/** `extractEmailsFromZip`: the walk over the top-level archive with the
    mailbox callback, which appends to one result list captured by the
    closure. Opening and statting the top-level file and reading its zip
    directory are not modelled beyond their outcome. */
module Extraction {
  import opened Wrappers
  import opened FilePaths
  import opened TimeParsing
  import opened Mailbox
  import opened Archive

  /** The callback for one entry: entries that are not mailboxes are ignored;
      a mailbox is opened and scanned. */
  function CallbackEffect(parse: LayoutParser, f: File): (r: Effect)
    ensures !IsMailboxName(f.name) ==> r == Effect([], None)
  {
    if !IsMailboxName(f.name) then Effect([], None)
    else if f.openErr.Some? then Effect([], Some(OpenArchivedFile(f.openErr.value)))
    else Scan(parse, f.mailbox)
  }

  /** An entry the callback accepts without error: not a mailbox, or a
      mailbox that opens, whose every message has a readable body and a
      Date header some layout parses, and whose scan ends cleanly. */
  ghost predicate Accepted(parse: LayoutParser, f: File)
  {
    !IsMailboxName(f.name) ||
      (&& f.openErr.None?
       && f.mailbox.scanErr.None?
       && forall j :: 0 <= j < |f.mailbox.messages| ==>
            f.mailbox.messages[j].body.Ok? && DateOf(parse, f.mailbox.messages[j]).1.None?)
  }

  /** The messages an entry contributes records for. */
  function Contributed(f: File): seq<Message>
  {
    if IsMailboxName(f.name) then f.mailbox.messages else []
  }

  /** Records that describe, one by one and in order, a list of messages. */
  ghost predicate AllDescribe(parse: LayoutParser, es: seq<Email>, ms: seq<Message>)
  {
    |es| == |ms| && forall j :: 0 <= j < |es| ==> Describes(parse, es[j], ms[j])
  }

  lemma AllDescribeAppend(parse: LayoutParser, e1: seq<Email>, m1: seq<Message>, e2: seq<Email>, m2: seq<Message>)
    requires AllDescribe(parse, e1, m1) && AllDescribe(parse, e2, m2)
    ensures AllDescribe(parse, e1 + e2, m1 + m2)
  {
    forall j | 0 <= j < |e1| + |e2| ensures Describes(parse, (e1 + e2)[j], (m1 + m2)[j]) {
      if j >= |e1| {
        assert (e1 + e2)[j] == e2[j - |e1|] && (m1 + m2)[j] == m2[j - |e1|];
      }
    }
  }

  /** The callback fails exactly on entries it does not accept; when it
      succeeds it has appended one record per message of a mailbox, and
      nothing for any other entry. */
  lemma CallbackEffectSpec(parse: LayoutParser, f: File)
    ensures CallbackEffect(parse, f).err.None? <==> Accepted(parse, f)
    ensures CallbackEffect(parse, f).err.None? ==> AllDescribe(parse, CallbackEffect(parse, f).appended, Contributed(f))
  {
    if IsMailboxName(f.name) && f.openErr.None? {
      var msgs := f.mailbox.messages;
      RecordsSpec(parse, msgs);
      forall j | 0 <= j < |msgs| ensures Convert(parse, msgs[j]).Ok? <==> msgs[j].body.Ok? && DateOf(parse, msgs[j]).1.None? {
        ConvertSpec(parse, msgs[j]);
      }
      if Records(parse, msgs).err.Some? {
        var k := |Records(parse, msgs).appended|;
        ConvertSpec(parse, msgs[k]);
        assert !(msgs[k].body.Ok? && DateOf(parse, msgs[k]).1.None?);
      }
    }
  }

  /** The result list and the walk's error, if any. */
  datatype Outcome = Outcome(emails: seq<Email>, err: Option<WalkError>)

  /** Running a plan from a given result list: callbacks in order until the
      first one fails, whose error is wrapped with the entry's path; then
      the plan's own stop. */
  function RunPlan(parse: LayoutParser, plan: Plan, emails: seq<Email>): (r: Outcome)
    ensures |emails| <= |r.emails| && r.emails[..|emails|] == emails
    decreases |plan.visits|
  {
    if plan.visits == [] then Outcome(emails, plan.stop)
    else
      var v := plan.visits[0];
      var eff := CallbackEffect(parse, v.file);
      if eff.err.Some? then Outcome(emails + eff.appended, Some(ProcessingFile(v.path, eff.err.value)))
      else
        var r := RunPlan(parse, Plan(plan.visits[1..], plan.stop), emails + eff.appended);
        assert r.emails[..|emails|] == r.emails[..|emails + eff.appended|][..|emails|];
        r
  }

  /** Running two plans in sequence: the second runs, from where the first
      left the result list, only when the first ends without error. */
  lemma {:induction false} RunThen(parse: LayoutParser, a: Plan, b: Plan, emails: seq<Email>)
    ensures RunPlan(parse, Then(a, b), emails) ==
      var r := RunPlan(parse, a, emails); if r.err.Some? then r else RunPlan(parse, b, r.emails)
    decreases |a.visits|
  {
    if a.stop.None? && a.visits != [] {
      var eff := CallbackEffect(parse, a.visits[0].file);
      assert (a.visits + b.visits)[0] == a.visits[0];
      assert (a.visits + b.visits)[1..] == a.visits[1..] + b.visits;
      if eff.err.None? {
        RunThen(parse, Plan(a.visits[1..], None), b, emails + eff.appended);
      }
    } else if a.stop.None? {
      assert a.visits + b.visits == b.visits;
      assert Then(a, b) == b;
      assert RunPlan(parse, a, emails) == Outcome(emails, None);
    } else {
      RunPlanFails(parse, a, emails);
    }
  }

  /** A plan fails exactly when some visited entry is not accepted or the
      plan itself stops. */
  lemma {:induction false} RunPlanFails(parse: LayoutParser, plan: Plan, emails: seq<Email>)
    ensures RunPlan(parse, plan, emails).err.None? <==>
      plan.stop.None? && forall k :: 0 <= k < |plan.visits| ==> Accepted(parse, plan.visits[k].file)
    decreases |plan.visits|
  {
    if plan.visits != [] {
      var v := plan.visits[0];
      var eff := CallbackEffect(parse, v.file);
      CallbackEffectSpec(parse, v.file);
      var rest := Plan(plan.visits[1..], plan.stop);
      if eff.err.None? {
        RunPlanFails(parse, rest, emails + eff.appended);
        forall k | 0 < k < |plan.visits| ensures plan.visits[k] == rest.visits[k - 1] { }
      }
    }
  }

  /** A plan that succeeds has appended one record per message contributed
      by its visits, in visit order and then in message order. */
  lemma {:induction false} RunPlanRecords(parse: LayoutParser, plan: Plan, emails: seq<Email>)
    requires RunPlan(parse, plan, emails).err.None?
    ensures AllDescribe(parse, RunPlan(parse, plan, emails).emails[|emails|..], MessagesOf(plan.visits))
    decreases |plan.visits|
  {
    var all := RunPlan(parse, plan, emails).emails;
    if plan.visits == [] {
      assert all[|emails|..] == [];
    } else {
      var v := plan.visits[0];
      var eff := CallbackEffect(parse, v.file);
      CallbackEffectSpec(parse, v.file);
      var rest := Plan(plan.visits[1..], plan.stop);
      var mid := emails + eff.appended;
      assert all == RunPlan(parse, rest, mid).emails;
      RunPlanRecords(parse, rest, mid);
      SplitAfter(all, emails, eff.appended);
      AllDescribeAppend(parse, eff.appended, Contributed(v.file), all[|mid|..], MessagesOf(rest.visits));
    }
  }

  lemma SplitAfter(all: seq<Email>, emails: seq<Email>, added: seq<Email>)
    requires |emails + added| <= |all| && all[..|emails + added|] == emails + added
    ensures all[|emails|..] == added + all[|emails + added|..]
  {
    var l, r := all[|emails|..], added + all[|emails + added|..];
    assert |l| == |r|;
    forall k | 0 <= k < |l| ensures l[k] == r[k] {
      if k < |added| {
        assert all[..|emails + added|][|emails| + k] == added[k];
      }
    }
  }

  /** The messages a list of visits contributes, in visit order and then in
      message order. */
  function MessagesOf(vs: seq<Visit>): seq<Message>
  {
    if vs == [] then [] else Contributed(vs[0].file) + MessagesOf(vs[1..])
  }

  /** Paths only label errors: two plans that hand the same entries to the
      callback and stop the same way build the same list, and both succeed
      or both fail. */
  lemma {:induction false} RunPlanIgnoresPaths(parse: LayoutParser, a: Plan, b: Plan, emails: seq<Email>)
    requires SameEntries(a, b)
    ensures RunPlan(parse, a, emails).emails == RunPlan(parse, b, emails).emails
    ensures RunPlan(parse, a, emails).err.None? == RunPlan(parse, b, emails).err.None?
    decreases |a.visits|
  {
    if a.visits != [] {
      assert |b.visits| == |a.visits| && a.visits[0].file == b.visits[0].file;
      var eff := CallbackEffect(parse, a.visits[0].file);
      if eff.err.None? {
        assert Files(a.visits[1..]) == Files(a.visits)[1..];
        assert Files(b.visits[1..]) == Files(b.visits)[1..];
        RunPlanIgnoresPaths(parse, Plan(a.visits[1..], a.stop), Plan(b.visits[1..], b.stop), emails + eff.appended);
      }
    }
  }

  /** Running one entry's step, case by case as `descendZip` handles it. */
  lemma RunStep(parse: LayoutParser, prefix: Path, f: File, emails: seq<Email>)
    ensures f.isDir ==> RunPlan(parse, Step(prefix, f), emails) == Outcome(emails, None)
    ensures !f.isDir && f.openErr.Some? ==>
      RunPlan(parse, Step(prefix, f), emails) == Outcome(emails, Some(OpenArchiveFile(f.openErr.value)))
    ensures !f.isDir && f.openErr.None? && Ext(f.name) == ".zip" && f.archive.Err? ==>
      RunPlan(parse, Step(prefix, f), emails) == Outcome(emails, Some(NewZipFromReader(f.archive.error)))
    ensures !f.isDir && f.openErr.None? && Ext(f.name) == ".zip" && f.archive.Ok? ==>
      Step(prefix, f) == Walk(prefix + [f.name], f.archive.value, 0)
    ensures IsLeaf(f) ==>
      var eff := CallbackEffect(parse, f);
      RunPlan(parse, Step(prefix, f), emails) ==
        Outcome(emails + eff.appended, if eff.err.Some? then Some(ProcessingFile(prefix + [f.name], eff.err.value)) else None)
  {
  }

  /** The closure's captured state: the result list, and `time.Parse`. */
  class Extractor {
    const parse: LayoutParser
    var emails: seq<Email>

    constructor (parse: LayoutParser)
      ensures this.parse == parse && emails == []
    {
      this.parse := parse;
      emails := [];
    }

    /** The callback passed to `descendZip`. */
    method Callback(f: File) returns (err: Option<MailboxError>)
      modifies this
      ensures emails == old(emails) + CallbackEffect(parse, f).appended
      ensures err == CallbackEffect(parse, f).err
    {
      if !IsMailboxName(f.name) {
        return None;
      }
      if f.openErr.Some? {
        return Some(OpenArchivedFile(f.openErr.value));
      }
      err := AppendRecords(f.mailbox.messages);
      if err.None? && f.mailbox.scanErr.Some? {
        err := Some(ScanningMbox(f.mailbox.scanErr.value));
      }
    }

    /** The callback's `for ms.Next()` loop: read each message's body, parse
        its Date header, append its record; return at the first failure,
        keeping what was appended before it. */
    method AppendRecords(msgs: seq<Message>) returns (err: Option<MailboxError>)
      modifies this
      ensures emails == old(emails) + Records(parse, msgs).appended
      ensures err == Records(parse, msgs).err
    {
      ghost var done: seq<Email> := [];
      var i := 0;
      while i < |msgs|
        invariant 0 <= i <= |msgs|
        invariant emails == old(emails) + done
        invariant Records(parse, msgs) ==
          Effect(done + Records(parse, msgs[i..]).appended, Records(parse, msgs[i..]).err)
      {
        var m := msgs[i];
        RecordsStep(parse, msgs, i);
        if m.body.Err? {
          assert Convert(parse, m) == Err(ReadMessageBody(m.body.error));
          return Some(ReadMessageBody(m.body.error));
        }
        var ts, perr := TimeParser(DateLayouts).Parse(parse, Header(m, "Date"));
        assert DateOf(parse, m) == (ts, perr);
        if perr.Some? {
          assert Convert(parse, m) == Err(ReadingDateHeader(perr.value));
          return Some(ReadingDateHeader(perr.value));
        }
        var e := Email(Header(m, "From"), Header(m, "To"), Header(m, "Cc"), Header(m, "Subject"), m.body.value, ts);
        assert Convert(parse, m) == Ok(e);
        ghost var rest := Records(parse, msgs[i + 1..]);
        assert Records(parse, msgs[i..]) == Effect([e] + rest.appended, rest.err);
        assert (done + [e]) + rest.appended == done + ([e] + rest.appended);
        emails := emails + [e];
        done := done + [e];
        i := i + 1;
      }
      assert msgs[i..] == [];
      return None;
    }

    /** `descendZip` with this callback: each entry in container order,
        returning at the first error. */
    method DescendZip(prefix: Path, z: Reader) returns (err: Option<WalkError>)
      modifies this
      ensures Outcome(emails, err) == RunPlan(parse, Walk(prefix, z, 0), old(emails))
      decreases z
    {
      var i := 0;
      while i < |z.files|
        invariant 0 <= i <= |z.files|
        invariant RunPlan(parse, Walk(prefix, z, 0), old(emails)) == RunPlan(parse, Walk(prefix, z, i), emails)
      {
        RunThen(parse, Step(prefix, z.files[i]), Walk(prefix, z, i + 1), emails);
        err := DescendEntry(prefix, z.files[i]);
        if err.Some? {
          return;
        }
        i := i + 1;
      }
      return None;
    }

    /** One iteration of the loop in `descendZip`: skip a directory, open
        the entry, recurse into a ".zip" entry, hand anything else to the
        callback, wrapping its error with the entry's path. */
    method DescendEntry(prefix: Path, f: File) returns (err: Option<WalkError>)
      modifies this
      ensures Outcome(emails, err) == RunPlan(parse, Step(prefix, f), old(emails))
      decreases f
    {
      RunStep(parse, prefix, f, emails);
      if f.isDir {
        return None;
      }
      if f.openErr.Some? {
        return Some(OpenArchiveFile(f.openErr.value));
      }
      if Ext(f.name) == ".zip" {
        if f.archive.Err? {
          return Some(NewZipFromReader(f.archive.error));
        }
        err := DescendZip(prefix + [f.name], f.archive.value);
      } else {
        var e := Callback(f);
        if e.Some? {
          return Some(ProcessingFile(prefix + [f.name], e.value));
        }
        return None;
      }
    }
  }

  /** What opening the top-level archive file gives: `os.Open`, `Stat` or
      `zip.NewReader` fails, or the archive's entries. */
  datatype Input = OpenFailed(cause: Cause) | StatFailed(cause: Cause) | ReaderFailed(cause: Cause) | Opened(reader: Reader)

  /** The errors `extractEmailsFromZip` returns. */
  datatype ExtractError =
    | Open(cause: Cause)
    | Stat(cause: Cause)
    | CreatingZipReader(cause: Cause)
    | ReadingZipFile(err: WalkError)

  /** What `extractEmailsFromZip(path)` returns: the whole list when the walk
      succeeds, and no list at all otherwise. The walk starts with the
      archive's own path as prefix. */
  function Extract(parse: LayoutParser, path: string, input: Input): Result<seq<Email>, ExtractError>
  {
    match input
    case OpenFailed(c) => Err(Open(c))
    case StatFailed(c) => Err(Stat(c))
    case ReaderFailed(c) => Err(CreatingZipReader(c))
    case Opened(z) =>
      var r := RunPlan(parse, Walk([path], z, 0), []);
      if r.err.Some? then Err(ReadingZipFile(r.err.value)) else Ok(r.emails)
  }

  method ExtractEmailsFromZip(parse: LayoutParser, path: string, input: Input) returns (r: Result<seq<Email>, ExtractError>)
    ensures r == Extract(parse, path, input)
  {
    match input {
      case OpenFailed(c) => return Err(Open(c));
      case StatFailed(c) => return Err(Stat(c));
      case ReaderFailed(c) => return Err(CreatingZipReader(c));
      case Opened(z) =>
        var x := new Extractor(parse);
        var err := x.DescendZip([path], z);
        if err.Some? {
          return Err(ReadingZipFile(err.value));
        }
        return Ok(x.emails);
    }
  }

  /** The extraction succeeds exactly when the walk meets no structural
      error and the callback accepts every entry it is handed; the list is
      then one record per message of every visited mailbox, in walk order
      and then in file order, each describing its message. */
  lemma ExtractSpec(parse: LayoutParser, path: string, z: Reader)
    ensures var w := Walk([path], z, 0);
      var r := Extract(parse, path, Opened(z));
      && (r.Ok? <==> w.stop.None? && forall k :: 0 <= k < |w.visits| ==> Accepted(parse, w.visits[k].file))
      && (r.Ok? ==> AllDescribe(parse, r.value, MessagesOf(w.visits)))
  {
    var w := Walk([path], z, 0);
    RunPlanFails(parse, w, []);
    if RunPlan(parse, w, []).err.None? {
      RunPlanRecords(parse, w, []);
    }
    assert RunPlan(parse, w, []).emails[0..] == RunPlan(parse, w, []).emails;
  }

  /** Nesting does not change the result: an archive entry that opens and
      decodes can be replaced by its own entries, at its position, without
      changing whether extraction succeeds or what it returns. */
  lemma ExtractFlattensNesting(parse: LayoutParser, path: string, pre: seq<File>, f: File, post: seq<File>)
    requires !f.isDir && f.openErr.None? && Ext(f.name) == ".zip" && f.archive.Ok?
    ensures var nested := Extract(parse, path, Opened(Reader(pre + [f] + post)));
      var flat := Extract(parse, path, Opened(Reader(pre + f.archive.value.files + post)));
      && (nested.Ok? <==> flat.Ok?)
      && (nested.Ok? ==> nested.value == flat.value)
  {
    var p: Path := [path];
    WalkFlattensNesting(p, pre, f, post);
    RunPlanIgnoresPaths(parse, Walk(p, Reader(pre + [f] + post), 0), Walk(p, Reader(pre + f.archive.value.files + post), 0), []);
  }

  /** A visit the callback ignores can be dropped from between two plans
      without changing the run. */
  lemma DropIgnoredVisit(parse: LayoutParser, a: Plan, v: Visit, c: Plan)
    requires CallbackEffect(parse, v.file) == Effect([], None)
    ensures RunPlan(parse, Then(a, Then(Plan([v], None), c)), []) == RunPlan(parse, Then(a, c), [])
  {
    var s := Plan([v], None);
    RunThen(parse, a, Then(s, c), []);
    RunThen(parse, a, c, []);
    var ra := RunPlan(parse, a, []);
    RunThen(parse, s, c, ra.emails);
    assert RunPlan(parse, s, ra.emails) == Outcome(ra.emails, None) by {
      assert ra.emails + [] == ra.emails;
    }
  }

  /** An entry that is neither a mailbox nor a nested archive, and opens,
      changes nothing: it is handed to the callback, which returns at once. */
  lemma ExtractIgnoresOtherFiles(parse: LayoutParser, path: string, pre: seq<File>, f: File, post: seq<File>)
    requires IsLeaf(f) && !IsMailboxName(f.name)
    ensures Extract(parse, path, Opened(Reader(pre + [f] + post))) == Extract(parse, path, Opened(Reader(pre + post)))
  {
    var p: Path := [path];
    var a, c := Walk(p, Reader(pre), 0), Walk(p, Reader(post), 0);
    WalkAppend(p, pre + [f], post);
    WalkAppend(p, pre, [f]);
    WalkAppend(p, pre, post);
    WalkSingle(p, f);
    var s := Step(p, f);
    assert s == Plan([Visit(p + [f.name], f)], None);
    ThenAssoc(a, s, c);
    DropIgnoredVisit(parse, a, Visit(p + [f.name], f), c);
  }
}
