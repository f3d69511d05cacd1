// The chat objects of the chats endpoint, as the chat scripts read them
// with `dict.get`, and how Python renders the values they read.
module ChatData {
  import opened Common
  import opened Calendar

  /** A `createdAt` that `datetime.fromisoformat` accepted: its calendar date
      and the two `strftime` renderings the scripts print
      (`%B %d, %Y at %I:%M %p` and `%I:%M %p`). */
  datatype Instant = Instant(date: ValidDate, longText: string, clockText: string)

  /** One message: its `text`, its `createdAt`, and the `role` and `name` of
      its `user` object (both `Missing` when there is no `user`). */
  datatype Message = Message(text: Field, createdAt: Stamp<Instant>, role: Field, name: Field)

  /** One chat. `id` is `None` when the key is absent. It has no case for a
      JSON null id, so a null id and a missing one are not told apart here,
      although `chat.get("id", default)` gives `None` for the first and the
      default for the second. */
  datatype Chat = Chat(id: Option<string>, summary: Field, createdAt: Stamp<Instant>,
                       visibility: Field, messages: seq<Message>)

  /** `str(d.get(key, default))` for a string default: a JSON null prints
      as `None`. */
  function Shown(f: Field, default: string): (r: string)
    ensures f.Str? ==> r == f.s
    ensures f.Missing? ==> r == default
    ensures f.Null? ==> r == "None"
  {
    match f
    case Missing => default
    case Null => "None"
    case Str(s) => s
  }

  /** `d.get(key) or default`: the value when it is a non-empty string. */
  function OrElse(f: Field, default: string): (r: string)
    ensures f.Truthy() ==> r == f.s
    ensures !f.Truthy() ==> r == default
  {
    if f.Truthy() then f.s else default
  }

  /** `chat.get("id", default)` for a chat whose id, when present, is a string. */
  function IdOr(chat: Chat, default: string): string {
    if chat.id.Some? then chat.id.value else default
  }

  /** `s[:n]`. */
  function Prefix(s: string, n: nat): (r: string)
    ensures |r| <= n && |r| <= |s|
    ensures |s| <= n ==> r == s
    ensures |s| > n ==> r == s[..n]
  {
    if |s| <= n then s else s[..n]
  }

  /** The calendar date of a `createdAt` that parses, as
      `datetime.fromisoformat(created_at.replace('Z', '+00:00'))` does it when
      the value is truthy; nothing when it is missing, falsy or unparseable. */
  function CreatedDate(st: Stamp<Instant>): (r: Option<ValidDate>)
    ensures r.Some? <==> st.At?
  {
    if st.At? then Some(st.value.date) else None
  }
}
