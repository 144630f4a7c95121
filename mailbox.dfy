/** The per-entry side of extraction: which entries are mailboxes, how a
    header is projected to one string, and how a scanned mailbox becomes a
    list of records. The mbox framing and header parsing are not modelled:
    an entry carries the scanner's output, the messages it yields and the
    error it ends with, if any. */
module Mailbox {
  import opened Wrappers
  import opened FilePaths
  import opened TimeParsing

  newtype byte = b: int | 0 <= b < 256

  /** One message as the scanner yields it: headers keyed case-sensitively,
      each key mapped to its values in arrival order, and the outcome of
      reading the body to its end. */
  datatype Message = Message(header: map<string, seq<string>>, body: Result<seq<byte>, Cause>)

  /** What scanning one mailbox entry yields: the messages in file order,
      then the scanner's final error (`ms.Err()`), if any. */
  datatype Mailbox = Mailbox(messages: seq<Message>, scanErr: Option<Cause>)

  /** The output record; the field names are the JSON keys. */
  datatype Email = Email(From: string, To: string, CC: string, Subject: string, Body: seq<byte>, Timestamp: Time)

  /** The errors the callback returns, each wrapping the library's error. */
  datatype MailboxError =
    | OpenArchivedFile(cause: Cause)
    | ReadMessageBody(cause: Cause)
    | ReadingDateHeader(cause: Cause)
    | ScanningMbox(cause: Cause)

  /** The callback's name filter on the entry's base name. */
  predicate IsMailboxName(name: string)
  {
    HasSuffix(name, ".mbox") || HasSuffix(name, ".mbox.txt")
  }

  /** A mailbox name never has the extension ".zip", so a mailbox entry that
      is not a directory reaches the callback instead of being walked. */
  lemma MailboxNameIsNotZip(name: string)
    requires IsMailboxName(name)
    ensures Ext(name) != ".zip"
  {
    ExtZipIff(name);
  }

  /** `strings.Join`. */
  function Join(elems: seq<string>, sep: string): string
  {
    if elems == [] then ""
    else if |elems| == 1 then elems[0]
    else elems[0] + sep + Join(elems[1..], sep)
  }

  /** Where element i starts in `Join(elems, sep)`: the lengths of the
      elements before it, each followed by one separator. */
  function Offset(elems: seq<string>, sep: string, i: nat): nat
    requires i <= |elems|
  {
    if i == 0 then 0 else |elems[0]| + |sep| + Offset(elems[1..], sep, i - 1)
  }

  lemma SliceAfterPrefix(p: string, t: string, lo: nat, hi: nat)
    requires lo <= hi <= |t|
    ensures (p + t)[|p| + lo..|p| + hi] == t[lo..hi]
  {
    assert forall j :: 0 <= j < hi - lo ==> (p + t)[|p| + lo..|p| + hi][j] == t[lo..hi][j];
  }

  /** The joined length: every element and one separator between each
      neighbouring pair. */
  lemma {:induction false} JoinLength(elems: seq<string>, sep: string)
    requires elems != []
    ensures |Join(elems, sep)| == Offset(elems, sep, |elems| - 1) + |elems[|elems| - 1]|
  {
    if |elems| > 1 {
      JoinLength(elems[1..], sep);
    }
  }

  /** The joined text holds every element at its offset, in the given order,
      with exactly one separator before every element but the first. */
  lemma {:induction false} JoinAt(elems: seq<string>, sep: string, i: nat)
    requires i < |elems|
    ensures Offset(elems, sep, i) + |elems[i]| <= |Join(elems, sep)|
    ensures Join(elems, sep)[Offset(elems, sep, i)..Offset(elems, sep, i) + |elems[i]|] == elems[i]
    ensures 0 < i ==> |sep| <= Offset(elems, sep, i)
    ensures 0 < i ==> Join(elems, sep)[Offset(elems, sep, i) - |sep|..Offset(elems, sep, i)] == sep
  {
    if |elems| > 1 {
      var rest := elems[1..];
      var head := elems[0] + sep;
      assert Join(elems, sep) == head + Join(rest, sep);
      if i > 0 {
        JoinAt(rest, sep, i - 1);
        var o := Offset(rest, sep, i - 1);
        assert rest[i - 1] == elems[i];
        SliceAfterPrefix(head, Join(rest, sep), o, o + |elems[i]|);
        if i > 1 {
          SliceAfterPrefix(head, Join(rest, sep), o - |sep|, o);
        }
      }
    }
  }

  /** The closure `xh`: all values of one header, joined with ", ". A key
      that is absent, or present with no values, gives the empty string. */
  function Header(m: Message, key: string): (r: string)
    ensures key !in m.header ==> r == ""
    ensures key in m.header && m.header[key] == [] ==> r == ""
    ensures key in m.header && |m.header[key]| == 1 ==> r == m.header[key][0]
  {
    Join(if key in m.header then m.header[key] else [], ", ")
  }

  /** The time taken from a message's Date header. */
  function DateOf(parse: LayoutParser, m: Message): (Time, Option<Cause>)
  {
    FirstMatch(parse, DateLayouts, Header(m, "Date"))
  }

  /** What a record built from message m holds: the four joined headers,
      the body bytes unchanged, and the time the Date header parsed to. */
  ghost predicate Describes(parse: LayoutParser, e: Email, m: Message)
  {
    && e.From == Header(m, "From")
    && e.To == Header(m, "To")
    && e.CC == Header(m, "Cc")
    && e.Subject == Header(m, "Subject")
    && m.body == Ok(e.Body)
    && DateOf(parse, m) == (e.Timestamp, None)
  }

  /** One iteration of the message loop: read the body, then parse the
      Date header, then build the record. */
  function Convert(parse: LayoutParser, m: Message): Result<Email, MailboxError>
  {
    match m.body
    case Err(c) => Err(ReadMessageBody(c))
    case Ok(bytes) =>
      match DateOf(parse, m)
      case (_, Some(c)) => Err(ReadingDateHeader(c))
      case (t, None) =>
        Ok(Email(Header(m, "From"), Header(m, "To"), Header(m, "Cc"), Header(m, "Subject"), bytes, t))
  }

  /** A message yields a record exactly when its body reads and its Date
      header parses, and the record then describes it; otherwise the body
      error comes first, then the Date error. */
  lemma ConvertSpec(parse: LayoutParser, m: Message)
    ensures Convert(parse, m).Ok? <==> m.body.Ok? && DateOf(parse, m).1.None?
    ensures Convert(parse, m).Ok? ==> Describes(parse, Convert(parse, m).value, m)
    ensures m.body.Err? ==> Convert(parse, m) == Err(ReadMessageBody(m.body.error))
    ensures m.body.Ok? && DateOf(parse, m).1.Some? ==>
      Convert(parse, m) == Err(ReadingDateHeader(DateOf(parse, m).1.value))
  {
  }

  /** What the callback appends to the result list, and the error it
      returns, if any. Records are appended even when a later step fails. */
  datatype Effect = Effect(appended: seq<Email>, err: Option<MailboxError>)

  /** The message loop: records in message order up to the first message
      that fails. */
  function Records(parse: LayoutParser, msgs: seq<Message>): Effect
  {
    if msgs == [] then Effect([], None)
    else match Convert(parse, msgs[0])
      case Err(e) => Effect([], Some(e))
      case Ok(r) =>
        var rest := Records(parse, msgs[1..]);
        Effect([r] + rest.appended, rest.err)
  }

  /** One turn of the message loop, from message i on. */
  lemma RecordsStep(parse: LayoutParser, msgs: seq<Message>, i: nat)
    requires i < |msgs|
    ensures Records(parse, msgs[i..]) ==
      match Convert(parse, msgs[i])
      case Err(e) => Effect([], Some(e))
      case Ok(r) => Effect([r] + Records(parse, msgs[i + 1..]).appended, Records(parse, msgs[i + 1..]).err)
  {
    assert msgs[i..][0] == msgs[i] && msgs[i..][1..] == msgs[i + 1..];
  }

  /** The whole scan of one mailbox: the message loop, then the scanner's
      own error when the loop itself did not fail. */
  function Scan(parse: LayoutParser, mb: Mailbox): Effect
  {
    var r := Records(parse, mb.messages);
    if r.err.None? && mb.scanErr.Some? then Effect(r.appended, Some(ScanningMbox(mb.scanErr.value))) else r
  }

  /** The message loop appends one record per message, in order, each
      describing its message; when it fails, it has appended the records of
      the messages before the first failing one, and reports that message's
      error. */
  lemma {:induction false} RecordsSpec(parse: LayoutParser, msgs: seq<Message>)
    ensures var r := Records(parse, msgs);
      && |r.appended| <= |msgs|
      && (forall j :: 0 <= j < |r.appended| ==> Describes(parse, r.appended[j], msgs[j]))
      && (r.err.None? <==> forall j :: 0 <= j < |msgs| ==> Convert(parse, msgs[j]).Ok?)
      && (r.err.None? ==> |r.appended| == |msgs|)
      && (r.err.Some? ==> |r.appended| < |msgs| && Convert(parse, msgs[|r.appended|]) == Err(r.err.value))
  {
    if msgs != [] {
      RecordsSpec(parse, msgs[1..]);
      ConvertSpec(parse, msgs[0]);
      var rest := Records(parse, msgs[1..]);
      if Convert(parse, msgs[0]).Ok? {
        var r := Records(parse, msgs);
        assert r.appended == [Convert(parse, msgs[0]).value] + rest.appended;
        forall j | 0 <= j < |r.appended| ensures Describes(parse, r.appended[j], msgs[j]) {
          if j > 0 { assert r.appended[j] == rest.appended[j - 1] && msgs[j] == msgs[1..][j - 1]; }
        }
        if r.err.None? {
          forall j | 0 <= j < |msgs| ensures Convert(parse, msgs[j]).Ok? {
            if j > 0 { assert msgs[j] == msgs[1..][j - 1]; }
          }
        } else {
          assert msgs[|r.appended|] == msgs[1..][|rest.appended|];
          assert Convert(parse, msgs[1..][|rest.appended|]).Err?;
        }
      }
    }
  }
}
