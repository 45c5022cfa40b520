/** The e-mail notification server of backend/server_notif.py, without its
    network traffic: what each tool derives from its arguments and from the
    stored configuration before (or instead of) calling the Testmail API. The
    configuration file becomes an `Option<Config>` argument (None when the file
    does not exist). */
module Notif {
  import opened Prelude
  import opened PyStr
  import opened DueDates

  /** The contents of the configuration file. */
  datatype Config = Config(apiKey: string, namespace: string, defaultFrom: string, configuredAt: Stamp)

  /** The tools refuse to act before `configure_testmail` has saved a configuration. */
  datatype NotConfigured = NotConfigured

  // ---------------------------------------------------------------------------
  // configure_testmail

  /** The sender used when `configure_testmail` is given none. */
  function DefaultSender(namespace: string): (r: string)
    ensures |r| == |namespace| + 21 && StartsWith(r, "noreply@") && EndsWith(r, ".testmail.app")
    ensures r[8..|r| - 13] == namespace
  {
    "noreply@" + namespace + ".testmail.app"
  }

  /** Different namespaces get different default senders. */
  lemma DefaultSenderInjective(a: string, b: string)
    requires DefaultSender(a) == DefaultSender(b)
    ensures a == b
  {
    assert a == DefaultSender(a)[8..|DefaultSender(a)| - 13];
  }

  /** The configuration that `configure_testmail` saves once the key is
      accepted: the given sender, or the namespace's default when it is absent
      or empty. */
  function Configure(apiKey: string, namespace: string, defaultFrom: Option<string>, stamp: Stamp)
    : (c: Config)
    ensures c.apiKey == apiKey && c.namespace == namespace && c.configuredAt == stamp
    ensures Given(defaultFrom) ==> c.defaultFrom == defaultFrom.value
    ensures !Given(defaultFrom) ==> c.defaultFrom == DefaultSender(namespace)
  {
    Config(apiKey, namespace, if Given(defaultFrom) then defaultFrom.value else DefaultSender(namespace), stamp)
  }

  /** The web inbox of a namespace, narrowed to one tag when a tag is given. */
  function InboxUrl(namespace: string, tag: Option<string>): (r: string)
    ensures StartsWith(r, "https://testmail.app/inbox/" + namespace)
    ensures !Given(tag) <==> r == "https://testmail.app/inbox/" + namespace
    ensures Given(tag) ==> r[|"https://testmail.app/inbox/" + namespace|..] == "/" + tag.value
  {
    var base := "https://testmail.app/inbox/" + namespace;
    if Given(tag) then base + "/" + tag.value else base
  }

  // ---------------------------------------------------------------------------
  // send_email

  /** `re.sub('<[^<]+?>', '')` with t the text after a '<': the match ends at a
      '>' at position k >= 1 of t, with no '<' before it. */
  predicate ClosesAt(t: string, k: int)
  {
    1 <= k < |t| && t[k] == '>' && forall m :: 0 <= m < k ==> t[m] != '<'
  }

  function ScanClose(t: string, j: nat): (r: Option<nat>)
    requires 1 <= j <= |t|
    requires forall m :: 0 <= m < j ==> t[m] != '<'
    ensures r.Some? ==> j <= r.value && ClosesAt(t, r.value)
    ensures r.Some? ==> forall k :: j <= k < r.value ==> !ClosesAt(t, k)
    ensures r.None? ==> forall k :: j <= k < |t| ==> !ClosesAt(t, k)
    decreases |t| - j
  {
    if j == |t| then None
    else if t[j] == '>' then Some(j)
    else if t[j] == '<' then None
    else ScanClose(t, j + 1)
  }

  /** Where the lazy `[^<]+?>` stops after a '<': the first closing position,
      or None when the pattern cannot match there. */
  function TagClose(t: string): (r: Option<nat>)
    ensures r.Some? ==> ClosesAt(t, r.value) && forall k :: 0 <= k < r.value ==> !ClosesAt(t, k)
    ensures r.None? <==> forall k :: 0 <= k < |t| ==> !ClosesAt(t, k)
  {
    if t == [] || t[0] == '<' then None else ScanClose(t, 1)
  }

  /** `re.sub('<[^<]+?>', '', s)`: scanning left to right, each match is dropped
      and scanning resumes after it; a '<' where no match starts is kept. */
  function StripTags(s: string): (r: string)
    ensures |r| <= |s|
    decreases |s|
  {
    if s == [] then []
    else if s[0] == '<' && TagClose(s[1..]).Some? then StripTags(s[1..][TagClose(s[1..]).value + 1..])
    else [s[0]] + StripTags(s[1..])
  }

  /** Text in which no tag can start. */
  predicate NoOpening(s: string)
  {
    forall i :: 0 <= i < |s| ==> s[i] != '<'
  }

  /** What may stand between the brackets of a tag that the pattern removes whole. */
  predicate TagBody(tag: string)
  {
    tag != [] && forall i :: 0 <= i < |tag| ==> tag[i] != '<' && tag[i] != '>'
  }

  /** A tag at the very start is dropped. */
  lemma StripLeadingTag(tag: string, b: string)
    requires TagBody(tag)
    ensures StripTags("<" + tag + ">" + b) == StripTags(b)
  {
    var t := ("<" + tag + ">" + b)[1..];
    assert t == tag + ">" + b;
    forall k | 0 <= k < |tag|
      ensures t[k] == tag[k] && !ClosesAt(t, k)
    {
      assert t[k] == tag[k];
    }
    assert ClosesAt(t, |tag|);
    assert t[|tag| + 1..] == b;
  }

  /** Text in which no tag can start is copied, whatever follows it. */
  lemma {:induction false} StripTagsKeepsPlainPrefix(a: string, x: string)
    requires NoOpening(a)
    ensures StripTags(a + x) == a + StripTags(x)
    decreases |a|
  {
    if a == [] {
      assert a + x == x;
    } else {
      var s := a + x;
      assert s[0] == a[0] && s[1..] == a[1..] + x;
      assert NoOpening(a[1..]) by {
        forall i | 0 <= i < |a[1..]| ensures a[1..][i] != '<' {
          assert a[1..][i] == a[i + 1];
        }
      }
      StripTagsKeepsPlainPrefix(a[1..], x);
      assert StripTags(s) == [a[0]] + StripTags(a[1..] + x);
      assert a == [a[0]] + a[1..];
    }
  }

  /** Text without '<' has no tag to strip. */
  lemma StripTagsPlain(s: string)
    requires NoOpening(s)
    ensures StripTags(s) == s
  {
    StripTagsKeepsPlainPrefix(s, []);
    assert s + [] == s;
  }

  /** A tag (some characters other than '<' and '>' between '<' and '>')
      is dropped, and the tag-free text before it is kept. */
  lemma StripTagsRemovesTag(a: string, tag: string, b: string)
    requires NoOpening(a) && TagBody(tag)
    ensures StripTags(a + ("<" + tag + ">" + b)) == a + StripTags(b)
  {
    StripTagsKeepsPlainPrefix(a, "<" + tag + ">" + b);
    StripLeadingTag(tag, b);
  }

  /** The text version of an HTML body: `<br>` and `<br/>` become line breaks,
      then the remaining tags are stripped. */
  function PlainText(body: string): (r: string)
    ensures |r| <= |body|
    ensures NoOpening(body) ==> r == body
  {
    var broken := Replace(Replace(body, "<br>", "\n"), "<br/>", "\n");
    if NoOpening(body) then
      ReplaceAbsent(body, "<br>", "\n");
      ReplaceAbsent(body, "<br/>", "\n");
      StripTagsPlain(broken);
      StripTags(broken)
    else StripTags(broken)
  }

  /** A `<br>` after tag-free text becomes a line break. */
  lemma PlainTextBreak(a: string, b: string)
    requires NoOpening(a)
    ensures PlainText(a + "<br>" + b) == a + "\n" + PlainText(b)
  {
    var b1 := Replace(b, "<br>", "\n");
    ReplaceHit(a, "<br>", "\n", b);
    ReplaceKeepsPlainPrefix(a + "\n", b1, "<br/>", "\n");
    StripTagsKeepsPlainPrefix(a + "\n", Replace(b1, "<br/>", "\n"));
  }

  /** Replacing `<br>` passes over a `<br/>`, which is not one. */
  lemma ReplaceSkipsSelfClosing(b: string)
    ensures Replace("<br/>" + b, "<br>", "\n") == "<br/>" + Replace(b, "<br>", "\n")
  {
    var t := "<br/>" + b;
    assert t[..4] != "<br>" by { assert t[..4][3] == '/'; }
    assert t[1..] == "br/>" + b;
    ReplaceKeepsPlainPrefix("br/>", b, "<br>", "\n");
    assert Replace(t, "<br>", "\n") == ['<'] + Replace(t[1..], "<br>", "\n");
    assert t == ['<'] + t[1..];
  }

  /** The first pass of the text version leaves a `<br/>` after tag-free text alone. */
  lemma FirstPassKeepsSelfClosing(a: string, b: string)
    requires NoOpening(a)
    ensures Replace(a + "<br/>" + b, "<br>", "\n") == a + "<br/>" + Replace(b, "<br>", "\n")
  {
    var br, pat, nl := "<br/>", "<br>", "\n";
    var t, b1 := br + b, Replace(b, pat, nl);
    assert Replace(a + t, pat, nl) == a + (br + b1) by {
      ReplaceKeepsPlainPrefix(a, t, pat, nl);
      ReplaceSkipsSelfClosing(b);
    }
    assert a + br + b == a + t;
    assert a + (br + b1) == a + br + b1;
  }

  /** A `<br/>` after tag-free text becomes a line break too. */
  lemma PlainTextSelfClosingBreak(a: string, b: string)
    requires NoOpening(a)
    ensures PlainText(a + "<br/>" + b) == a + "\n" + PlainText(b)
  {
    var b1 := Replace(b, "<br>", "\n");
    var b2 := Replace(b1, "<br/>", "\n");
    FirstPassKeepsSelfClosing(a, b);
    ReplaceHit(a, "<br/>", "\n", b1);
    StripTagsKeepsPlainPrefix(a + "\n", b2);
  }

  /** The JSON body posted to the send endpoint. */
  datatype Payload = Payload(sender: string, to: string, subject: string, html: Option<string>, text: string)

  /** `send_email(to, subject, body, from_email, html)` up to the POST: refused
      without a configuration; the sender is `from_email` unless it is absent or
      empty, then the configured default; an HTML mail carries the body as
      `html` and its plain text as `text`, no longer than the body; otherwise
      the body is the `text`. */
  function SendEmail(config: Option<Config>, to: string, subject: string, body: string,
                     fromEmail: Option<string>, html: bool): (r: Result<Payload, NotConfigured>)
    ensures r.Err? <==> config.None?
    ensures r.Ok? ==> r.value.to == to && r.value.subject == subject
    ensures r.Ok? ==> r.value.sender == if Given(fromEmail) then fromEmail.value else config.value.defaultFrom
    ensures r.Ok? && html ==> r.value.html == Some(body) && r.value.text == PlainText(body) && |r.value.text| <= |body|
    ensures r.Ok? && !html ==> r.value.html == None && r.value.text == body
  {
    match config
    case None => Err(NotConfigured)
    case Some(c) =>
      var sender := if Given(fromEmail) then fromEmail.value else c.defaultFrom;
      if html then Ok(Payload(sender, to, subject, Some(body), PlainText(body)))
      else Ok(Payload(sender, to, subject, None, body))
  }

  // ---------------------------------------------------------------------------
  // send_notification

  /** A notification type's banner colour and icon. */
  datatype Style = Style(color: string, icon: string)

  const Styles: map<string, Style> := map[
    "info" := Style("#3b82f6", "\U{2139}\U{FE0F}"),
    "success" := Style("#10b981", "\U{2705}"),
    "warning" := Style("#f59e0b", "\U{26A0}\U{FE0F}"),
    "error" := Style("#ef4444", "\U{274C}")
  ]

  /** The style of a notification type, looked up lower-cased; unknown types
      get the style of "info". */
  function StyleOf(kind: string): (r: Style)
    ensures Lower(kind) in Styles ==> r == Styles[Lower(kind)]
    ensures Lower(kind) !in Styles ==> r == Styles["info"]
    ensures r.color in {"#3b82f6", "#10b981", "#f59e0b", "#ef4444"}
  {
    var key := Lower(kind);
    if key in Styles then Styles[key] else Styles["info"]
  }

  /** The lookup ignores case: a type, its lower-case and its upper-case spelling
      share a style. */
  lemma StyleIgnoresCase(kind: string)
    ensures StyleOf(Lower(kind)) == StyleOf(kind)
    ensures StyleOf(Upper(kind)) == StyleOf(kind)
  {
    LowerIdempotent(kind);
    LowerOfUpper(kind);
  }

  /** The subject of a notification: the upper-cased type in brackets, then the
      title. */
  function NotificationSubject(kind: string, title: string): (r: string)
    ensures |r| == |kind| + |title| + 3
    ensures r[0] == '[' && r[|kind| + 1..|kind| + 3] == "] "
    ensures r[1..|kind| + 1] == Upper(kind) && r[|kind| + 3..] == title
  {
    "[" + Upper(kind) + "] " + title
  }

  /** The subject does not depend on how the type was capitalised. */
  lemma SubjectIgnoresCase(kind: string, title: string)
    ensures NotificationSubject(Lower(kind), title) == NotificationSubject(kind, title)
  {
    UpperOfLower(kind);
  }

  /** `send_notification(...)`: an HTML mail through `send_email`, with the
      notification subject and a body rendered (by `render`, the HTML template)
      from the type's style, the title and the message. */
  function SendNotification(config: Option<Config>, to: string, title: string, message: string, kind: string,
                            fromEmail: Option<string>, render: (Style, string, string) -> string)
    : (r: Result<Payload, NotConfigured>)
    ensures r.Err? <==> config.None?
    ensures r.Ok? ==> r.value.to == to && r.value.subject == NotificationSubject(kind, title)
    ensures r.Ok? ==> r.value.sender == if Given(fromEmail) then fromEmail.value else config.value.defaultFrom
    ensures r.Ok? ==> r.value.html == Some(render(StyleOf(kind), title, message))
    ensures r.Ok? ==> r.value.text == PlainText(render(StyleOf(kind), title, message))
  {
    SendEmail(config, to, NotificationSubject(kind, title), render(StyleOf(kind), title, message), fromEmail, true)
  }

  // ---------------------------------------------------------------------------
  // get_inbox_emails

  /** The `limit` query parameter: the requested limit, capped at 50. */
  function EmailLimit(limit: int): (r: int)
    ensures r <= 50 && r <= limit
    ensures r == limit || r == 50
  {
    if limit < 50 then limit else 50
  }

  /** The query parameters of the inbox request. */
  datatype InboxQuery = InboxQuery(apiKey: string, namespace: string, limit: int, tag: Option<string>)

  /** Refused without a configuration; otherwise the configured key and
      namespace, the capped limit, and the tag only when one is given. */
  function InboxRequest(config: Option<Config>, tag: Option<string>, limit: int): (r: Result<InboxQuery, NotConfigured>)
    ensures r.Err? <==> config.None?
    ensures r.Ok? ==> r.value.apiKey == config.value.apiKey && r.value.namespace == config.value.namespace
    ensures r.Ok? ==> r.value.limit == EmailLimit(limit) && r.value.limit <= 50
    ensures r.Ok? ==> (r.value.tag.Some? <==> Given(tag)) && (Given(tag) ==> r.value.tag == tag)
  {
    match config
    case None => Err(NotConfigured)
    case Some(c) => Ok(InboxQuery(c.apiKey, c.namespace, EmailLimit(limit), if Given(tag) then tag else None))
  }

  /** A field shortened for display: more than 200 characters become the first
      200 and "..."; shorter fields are kept. */
  function Preview(s: string): (r: string)
    ensures |s| <= 200 ==> r == s
    ensures |s| > 200 ==> |r| == 203 && r[..200] == s[..200] && r[200..] == "..."
    ensures |r| <= 203
  {
    if |s| > 200 then s[..200] + "..." else s
  }

  /** Shortening a shortened field changes nothing more. */
  lemma PreviewIdempotent(s: string)
    ensures Preview(Preview(s)) == Preview(s)
  {
    if |s| > 200 {
      assert Preview(s)[..200] == s[..200];
    }
  }

  /** One message as the inbox API returns it; html and text default to "". */
  datatype Email = Email(
    sender: Option<string>,
    recipient: Option<string>,
    subject: Option<string>,
    timestamp: Option<string>,
    html: string,
    text: string)

  /** One message as `get_inbox_emails` reports it: headers copied, bodies shortened. */
  function FormatEmail(e: Email): (r: Email)
    ensures r.sender == e.sender && r.recipient == e.recipient && r.subject == e.subject
    ensures r.timestamp == e.timestamp
    ensures r.html == Preview(e.html) && r.text == Preview(e.text)
    ensures |r.html| <= 203 && |r.text| <= 203
  {
    e.(html := Preview(e.html), text := Preview(e.text))
  }

  /** The loop of `get_inbox_emails`: every message, in order, formatted. */
  method FormatEmails(emails: seq<Email>) returns (formatted: seq<Email>)
    ensures |formatted| == |emails|
    ensures forall i :: 0 <= i < |emails| ==> formatted[i] == FormatEmail(emails[i])
    ensures forall i :: 0 <= i < |formatted| ==> |formatted[i].html| <= 203 && |formatted[i].text| <= 203
  {
    formatted := [];
    for n := 0 to |emails|
      invariant |formatted| == n
      invariant forall i :: 0 <= i < n ==> formatted[i] == FormatEmail(emails[i])
    {
      formatted := formatted + [FormatEmail(emails[n])];
    }
  }

  // ---------------------------------------------------------------------------
  // get_email_config

  /** The key as `get_email_config` shows it: its first and last 8 characters
      around "..." when it is longer than 16, otherwise fully hidden. */
  function MaskKey(key: string): (r: string)
    ensures |key| > 16 ==> |r| == 19 && r[..8] == key[..8] && r[8..11] == "..." && r[11..] == key[|key| - 8..]
    ensures |key| <= 16 ==> r == "***HIDDEN***"
  {
    if |key| > 16 then key[..8] + "..." + key[|key| - 8..] else "***HIDDEN***"
  }

  /** The mask hides the key except for keys that already look masked: the
      placeholder itself, and 19-character keys with "..." at positions 8-10. */
  lemma MaskKeyKeepsOnlyMasked(key: string)
    ensures MaskKey(key) == key <==> key == "***HIDDEN***" || (|key| == 19 && key[8..11] == "...")
  {
    if |key| == 19 && key[8..11] == "..." {
      assert key == key[..8] + key[8..11] + key[11..];
    }
  }

  datatype ConfigReport = NotConfiguredReport | ConfigShown(config: Config, inboxUrl: string)

  /** `get_email_config()`: the configuration with the key masked and every
      other field as stored, and the namespace's inbox. */
  function GetEmailConfig(config: Option<Config>): (r: ConfigReport)
    ensures r.NotConfiguredReport? <==> config.None?
    ensures r.ConfigShown? ==> r.config == config.value.(apiKey := MaskKey(config.value.apiKey))
    ensures r.ConfigShown? ==> r.inboxUrl == InboxUrl(config.value.namespace, None)
  {
    match config
    case None => NotConfiguredReport
    case Some(c) => ConfigShown(c.(apiKey := MaskKey(c.apiKey)), InboxUrl(c.namespace, None))
  }

  // ---------------------------------------------------------------------------
  // generate_test_email

  /** The address that delivers to the inbox `tag` of a namespace. */
  function TestAddress(tag: string, namespace: string): (r: string)
    ensures |r| == |tag| + |namespace| + 20 && EndsWith(r, "@inbox.testmail.app")
    ensures r[..|tag|] == tag && r[|tag|] == '.'
    ensures r[|tag| + 1..|r| - 19] == namespace
  {
    tag + "." + namespace + "@inbox.testmail.app"
  }

  /** For tags without a '.', an address names one tag and one namespace. */
  lemma TestAddressInjective(t1: string, n1: string, t2: string, n2: string)
    requires forall i :: 0 <= i < |t1| ==> t1[i] != '.'
    requires forall i :: 0 <= i < |t2| ==> t2[i] != '.'
    requires TestAddress(t1, n1) == TestAddress(t2, n2)
    ensures t1 == t2 && n1 == n2
  {
    var a := TestAddress(t1, n1);
    assert n1 == a[|t1| + 1..|a| - 19];
    assert n2 == a[|t2| + 1..|a| - 19];
  }

  datatype TestInbox = TestInbox(email: string, tag: string, namespace: string, inboxUrl: string)

  /** `generate_test_email(tag)`: refused without a configuration; otherwise
      the address and inbox of the tag in the configured namespace. */
  function GenerateTestEmail(config: Option<Config>, tag: string): (r: Result<TestInbox, NotConfigured>)
    ensures r.Err? <==> config.None?
    ensures r.Ok? ==> r.value.email == TestAddress(tag, config.value.namespace)
    ensures r.Ok? ==> r.value.tag == tag && r.value.namespace == config.value.namespace
    ensures r.Ok? ==> r.value.inboxUrl == InboxUrl(config.value.namespace, None) + "/" + tag
  {
    match config
    case None => Err(NotConfigured)
    case Some(c) =>
      Ok(TestInbox(TestAddress(tag, c.namespace), tag, c.namespace, InboxUrl(c.namespace, None) + "/" + tag))
  }

  /** For a non-empty tag the generated inbox is the tagged inbox that
      `get_inbox_emails` reports. */
  lemma TestInboxIsTaggedInbox(c: Config, tag: string)
    requires tag != ""
    ensures GenerateTestEmail(Some(c), tag).value.inboxUrl == InboxUrl(c.namespace, Some(tag))
  {
  }
}
