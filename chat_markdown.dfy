// `format_chat_as_markdown`, written three times over with small
// differences in how missing and null values render: a header block, then
// one block per message, with a `---` separator between consecutive
// messages and none after the last.
module ChatMarkdown {
  import opened Common
  import opened ChatData

  /** Which script's copy: `sync_all_chats.py`, `export_all_chats.py` or
      `export_remaining_chats.py`. */
  datatype Dialect = Sync | ExportAll | Remaining

  const Separator := "---\n\n"
  const UserIcon := "\U{1F464}"
  const AssistantIcon := "\U{1F916}"

  /** The header's summary: `get("summary") or "Untitled Chat"`, except in
      the full export, where it is `get("summary", "Untitled Chat")`. */
  function HeaderSummary(d: Dialect, chat: Chat): string {
    if d == ExportAll then Shown(chat.summary, "Untitled Chat") else OrElse(chat.summary, "Untitled Chat")
  }

  /** The header's visibility, defaulted to "unknown" in the same way. */
  function HeaderVisibility(d: Dialect, chat: Chat): string {
    if d == ExportAll then Shown(chat.visibility, "unknown") else OrElse(chat.visibility, "unknown")
  }

  /** The `Created:` line: "Unknown" when `createdAt` is missing or falsy,
      the long date when it parses, the raw value when it does not. */
  function CreatedText(st: Stamp<Instant>): string {
    match st
    case Absent => "Unknown"
    case Blank => "Unknown"
    case Garbled(raw) => raw
    case At(t) => t.longText
  }

  /** The message time: empty when missing or falsy, the clock time when it
      parses, the raw value when it does not. */
  function TimeText(st: Stamp<Instant>): string {
    match st
    case Absent => ""
    case Blank => ""
    case Garbled(raw) => raw
    case At(t) => t.clockText
  }

  function Header(d: Dialect, chat: Chat): string {
    "# " + HeaderSummary(d, chat) + "\n\n**Chat ID:** `" + IdOr(chat, "unknown")
    + "`\n**Created:** " + CreatedText(chat.createdAt)
    + "\n**Visibility:** " + HeaderVisibility(d, chat) + "\n\n" + Separator
  }

  /** The body text of a message. The sync turns a null text into ""; the
      other two concatenate it to a string and raise `TypeError`, which is
      `None` here. */
  function MessageText(d: Dialect, m: Message): (r: Option<string>)
    ensures r.None? <==> d != Sync && m.text.Null?
  {
    match m.text
    case Missing => Some("")
    case Null => if d == Sync then Some("") else None
    case Str(s) => Some(s)
  }

  /** The heading line of a message: the user icon exactly for role "user". */
  function Heading(m: Message): string {
    var time := TimeText(m.createdAt);
    "## " + (if m.role == Str("user") then UserIcon else AssistantIcon) + " " + Shown(m.name, "Unknown")
    + (if time != "" then " • " + time else "")
  }

  /** The block of one message, or `None` when rendering it raises. */
  function Block(d: Dialect, m: Message): Option<string> {
    match MessageText(d, m)
    case Some(text) => Some(Heading(m) + "\n\n" + text + "\n\n")
    case None => None
  }

  predicate Renders(d: Dialect, ms: seq<Message>) {
    forall i :: 0 <= i < |ms| ==> Block(d, ms[i]).Some?
  }

  function Blocks(d: Dialect, ms: seq<Message>): (r: seq<string>)
    requires Renders(d, ms)
    ensures |r| == |ms|
  {
    seq(|ms|, i requires 0 <= i < |ms| && Renders(d, ms) => Block(d, ms[i]).value)
  }

  /** `sep.join(parts)`. */
  function JoinWith(parts: seq<string>, sep: string): string {
    if |parts| == 0 then ""
    else if |parts| == 1 then parts[0]
    else JoinWith(parts[..|parts| - 1], sep) + sep + parts[|parts| - 1]
  }

  /** The document: the header, then the message blocks joined by the
      separator; `None` when some message does not render. */
  function Markdown(d: Dialect, chat: Chat): Option<string> {
    if Renders(d, chat.messages) then Some(Header(d, chat) + JoinWith(Blocks(d, chat.messages), Separator))
    else None
  }

  lemma BlocksSnoc(d: Dialect, ms: seq<Message>, k: nat, next: nat)
    requires next == k + 1 && next <= |ms| && Renders(d, ms[..next])
    ensures Renders(d, ms[..k])
    ensures Blocks(d, ms[..next]) == Blocks(d, ms[..k]) + [Block(d, ms[k]).value]
  {
    assert forall i :: 0 <= i < k ==> ms[..k][i] == ms[..next][i];
    assert ms[..next][k] == ms[k];
  }

  lemma JoinWithSnoc(parts: seq<string>, p: string, sep: string)
    ensures JoinWith(parts + [p], sep) == if parts == [] then p else JoinWith(parts, sep) + sep + p
  {
    var q := parts + [p];
    assert q[..|q| - 1] == parts;
  }

  /** One turn of the loop below: appending the next block to the
      document so far gives the document of one more message. */
  lemma RenderStep(d: Dialect, ms: seq<Message>, header: string, text: string, i: nat, next: nat)
    requires next == i + 1 && next <= |ms| && Renders(d, ms[..i]) && Block(d, ms[i]).Some?
    requires text == header + JoinWith(Blocks(d, ms[..i]), Separator) + (if 0 < i then Separator else "")
    ensures Renders(d, ms[..next])
    ensures text + Block(d, ms[i]).value == header + JoinWith(Blocks(d, ms[..next]), Separator)
  {
    assert Renders(d, ms[..next]) by {
      assert forall j :: 0 <= j < i ==> ms[..next][j] == ms[..i][j];
      assert ms[..next][i] == ms[i];
    }
    BlocksSnoc(d, ms, i, next);
    JoinWithSnoc(Blocks(d, ms[..i]), Block(d, ms[i]).value, Separator);
  }

  lemma NotRendered(d: Dialect, chat: Chat, i: nat)
    requires i < |chat.messages| && Block(d, chat.messages[i]).None?
    ensures Markdown(d, chat).None?
  {
  }

  /** The loop of `format_chat_as_markdown`: `md += block`, then the
      separator unless the message is the last one. */
  method FormatChatAsMarkdown(d: Dialect, chat: Chat) returns (md: Option<string>)
    ensures md == Markdown(d, chat)
  {
    var ms := chat.messages;
    var header := Header(d, chat);
    var text := header;
    var i := 0;
    while i < |ms|
      invariant 0 <= i <= |ms|
      invariant Renders(d, ms[..i])
      invariant text == header + JoinWith(Blocks(d, ms[..i]), Separator) + (if 0 < i < |ms| then Separator else "")
    {
      var block := Block(d, ms[i]);
      if block.None? {
        NotRendered(d, chat, i);
        return None;
      }
      var next := i + 1;
      RenderStep(d, ms, header, text, i, next);
      text := text + block.value;
      if i < |ms| - 1 {
        text := text + Separator;
      }
      i := next;
    }
    assert ms[..i] == ms;
    assert text == header + JoinWith(Blocks(d, ms), Separator) + "";
    assert text == header + JoinWith(Blocks(d, ms), Separator);
    md := Some(text);
  }

  // ----- What the document looks like -----

  /** Joining two non-empty runs of parts puts exactly one separator
      between them. */
  lemma {:induction false} JoinWithAppend(a: seq<string>, b: seq<string>, sep: string)
    requires a != [] && b != []
    ensures JoinWith(a + b, sep) == JoinWith(a, sep) + sep + JoinWith(b, sep)
    decreases |b|
  {
    var ab := a + b;
    if |b| == 1 {
      assert ab[..|ab| - 1] == a;
    } else {
      var b' := b[..|b| - 1];
      assert ab[..|ab| - 1] == a + b';
      JoinWithAppend(a, b', sep);
      assert b[..|b| - 1] == b';
    }
  }

  function Lengths(parts: seq<string>): (r: seq<int>)
    ensures |r| == |parts|
  {
    seq(|parts|, i requires 0 <= i < |parts| => |parts[i]|)
  }

  /** n parts joined are the parts plus n - 1 separators. */
  lemma {:induction false} JoinWithLength(parts: seq<string>, sep: string)
    requires parts != []
    ensures |JoinWith(parts, sep)| == Sum(Lengths(parts)) + (|parts| - 1) * |sep|
    decreases |parts|
  {
    if |parts| == 1 {
      assert Lengths(parts) == [|parts[0]|];
      assert Sum([|parts[0]|]) == |parts[0]| + Sum([]);
    } else {
      var init := parts[..|parts| - 1];
      var last := parts[|parts| - 1];
      JoinWithLength(init, sep);
      assert Lengths(parts) == Lengths(init) + [|last|];
      SumAppend(Lengths(init), [|last|]);
      assert Sum([|last|]) == |last| + Sum([]);
    }
  }

  /** A rendered chat is its header followed by the message blocks with
      exactly one separator between message i and message i + 1. */
  lemma MarkdownSeparators(d: Dialect, chat: Chat, i: nat)
    requires Renders(d, chat.messages) && i + 1 < |chat.messages|
    ensures var bs := Blocks(d, chat.messages);
      Markdown(d, chat) == Some(Header(d, chat) + (JoinWith(bs[..i + 1], Separator) + Separator + JoinWith(bs[i + 1..], Separator)))
  {
    var bs := Blocks(d, chat.messages);
    assert bs == bs[..i + 1] + bs[i + 1..];
    JoinWithAppend(bs[..i + 1], bs[i + 1..], Separator);
    assert JoinWith(bs, Separator) == JoinWith(bs[..i + 1], Separator) + Separator + JoinWith(bs[i + 1..], Separator);
  }

  /** n messages render to the header, the n blocks and n - 1 separators,
      and nothing else. */
  lemma MarkdownLength(d: Dialect, chat: Chat)
    requires Renders(d, chat.messages) && chat.messages != []
    ensures var bs := Blocks(d, chat.messages);
      |Markdown(d, chat).value| == |Header(d, chat)| + Sum(Lengths(bs)) + (|bs| - 1) * |Separator|
  {
    JoinWithLength(Blocks(d, chat.messages), Separator);
  }

  /** The document ends with the last message's block, not a separator. */
  lemma MarkdownEndsWithLastBlock(d: Dialect, chat: Chat)
    requires Markdown(d, chat).Some? && chat.messages != []
    ensures var md := Markdown(d, chat).value;
      var b := Block(d, chat.messages[|chat.messages| - 1]).value;
      |b| <= |md| && md[|md| - |b|..] == b
  {
    var bs := Blocks(d, chat.messages);
    var n := |bs|;
    assert bs[n - 1] == Block(d, chat.messages[n - 1]).value;
  }

  /** A message heading carries the user icon exactly when the role is
      "user"; every other role, missing and null included, gets the
      assistant icon. */
  lemma HeadingIcon(m: Message)
    ensures Heading(m)[..4] == "## " + UserIcon <==> m.role == Str("user")
    ensures m.role != Str("user") ==> Heading(m)[..4] == "## " + AssistantIcon
  {
    var icon := if m.role == Str("user") then UserIcon else AssistantIcon;
    var time := TimeText(m.createdAt);
    var rest := " " + Shown(m.name, "Unknown") + (if time != "" then " • " + time else "");
    assert Heading(m) == ("## " + icon) + rest;
    assert Heading(m)[..4] == "## " + icon;
    assert UserIcon[0] != AssistantIcon[0];
    assert ("## " + UserIcon)[3] != ("## " + AssistantIcon)[3];
  }

  /** The sync renders every chat, reading a null text as an empty one; the
      other two fail exactly on a chat with a null message text. */
  lemma RendersIffNoNullText(d: Dialect, chat: Chat)
    ensures Markdown(d, chat).Some? <==>
      (d == Sync || forall i :: 0 <= i < |chat.messages| ==> !chat.messages[i].text.Null?)
    ensures forall m: Message :: d == Sync && m.text.Null? ==> Block(d, m) == Block(d, m.(text := Str("")))
  {
  }

  /** The header defaults: the two `or` copies render a null or empty
      summary as "Untitled Chat" and a null visibility as "unknown"; the
      full export, reading with `get` defaults, prints a null as "None". */
  lemma HeaderDefaults(d: Dialect, chat: Chat)
    ensures d != ExportAll && !chat.summary.Truthy() ==> HeaderSummary(d, chat) == "Untitled Chat"
    ensures d != ExportAll && !chat.visibility.Truthy() ==> HeaderVisibility(d, chat) == "unknown"
    ensures d == ExportAll && chat.summary.Null? ==> HeaderSummary(d, chat) == "None"
    ensures d == ExportAll && chat.visibility.Null? ==> HeaderVisibility(d, chat) == "None"
    ensures chat.summary.Truthy() ==> HeaderSummary(d, chat) == chat.summary.s
  {
  }
}
