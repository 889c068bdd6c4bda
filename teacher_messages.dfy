/**
 * The teacher's mailbox page: the sender avatar's colour and initials, the
 * search filter, and the merge of a message's content once fetched.
 */
module TeacherMessages {
  import opened Wrappers
  import opened Collections
  import opened Text

  const AVATAR_COLORS := [
    "#1a73e8", "#ea4335", "#fbbc04", "#34a853", "#ff6d01",
    "#46bdc6", "#7baaf7", "#f07b72", "#a142f4", "#24c1e0",
    "#5f6368", "#e91e63", "#9c27b0", "#00bcd4", "#ff5722"]

  /** `ToInt32`: the value modulo 2^32, read as a signed 32-bit integer. */
  function Int32(x: int): (r: int)
    ensures -0x8000_0000 <= r < 0x8000_0000
    ensures (r - x) % 0x1_0000_0000 == 0
  {
    (x + 0x8000_0000) % 0x1_0000_0000 - 0x8000_0000
  }

  /** One step of the hash: `code + ((hash << 5) - hash)`, where only the shift wraps to 32 bits. */
  function HashStep(hash: int, code: int): int
  {
    code + (Int32(Int32(hash) * 32) - hash)
  }

  /** The hash of a sequence of code units, folded from the left. */
  function Hash(units: seq<int>): int
  {
    if |units| == 0 then 0 else HashStep(Hash(units[..|units| - 1]), units[|units| - 1])
  }

  function Abs(x: int): nat
  {
    if x < 0 then -x else x
  }

  /** The palette index of a name: the first colour without a name. */
  function AvatarIndex(name: string): (i: nat)
    ensures i < |AVATAR_COLORS|
  {
    if name == "" then 0 else Abs(Hash(CodeUnits(name))) % |AVATAR_COLORS|
  }

  /** `getAvatarColor(name)`. */
  method AvatarColor(name: string) returns (color: string)
    ensures color == AVATAR_COLORS[AvatarIndex(name)]
    ensures color in AVATAR_COLORS
    ensures name == "" ==> color == AVATAR_COLORS[0]
  {
    if name == "" {
      return AVATAR_COLORS[0];
    }
    var units := CodeUnits(name);
    var hash := 0;
    var i := 0;
    while i < |units|
      invariant 0 <= i <= |units|
      invariant hash == Hash(units[..i])
    {
      assert units[..i + 1][..i] == units[..i];
      hash := units[i] + (Int32(Int32(hash) * 32) - hash);
      i := i + 1;
    }
    assert units[..i] == units;
    color := AVATAR_COLORS[Abs(hash) % |AVATAR_COLORS|];
  }

  /** The words of a name: split on single spaces, empty pieces dropped. */
  function Words(name: string): (parts: seq<string>)
    ensures forall i :: 0 <= i < |parts| ==> parts[i] != ""
  {
    Filter(Split(Trim(name), ' '), (p: string) => p != "")
  }

  /** `getInitials(name)`. */
  function Initials(name: string): (r: string)
    ensures name == "" ==> r == "?"
    ensures name != "" ==> 1 <= |r| <= 2
    ensures |Words(name)| >= 2 && name != "" ==>
      r == [UpperChar(Words(name)[0][0]), UpperChar(Words(name)[|Words(name)| - 1][0])]
    ensures |Words(name)| < 2 && name != "" ==> r == Upper(name[..if |name| < 2 then |name| else 2])
  {
    if name == "" then "?"
    else
      var parts := Words(name);
      if |parts| >= 2 then Upper([parts[0][0], parts[|parts| - 1][0]])
      else Upper(name[..if |name| < 2 then |name| else 2])
  }

  /** The sender object of a message. */
  datatype Sender = Sender(nom: Option<string>, prenom: Option<string>)

  /**
   * A message of the list: a field is None when the object lacks it.
   * `fields` holds the remaining fields by name, among them `content`.
   */
  datatype Message = Message(id: int, from: Option<Sender>, expediteur: Option<string>,
                             subject: Option<string>, objet: Option<string>, fields: map<string, string>)

  /** `a || b` on optional strings: the first one present and non-empty, else the empty string. */
  function Or(a: Option<string>, b: Option<string>): string
  {
    if a.Some? && a.value != "" then a.value
    else if b.Some? && b.value != "" then b.value
    else ""
  }

  function SenderNom(m: Message): Option<string>
  {
    if m.from.Some? then m.from.value.nom else None
  }

  function SenderPrenom(m: Message): Option<string>
  {
    if m.from.Some? then m.from.value.prenom else None
  }

  /** The message matches the search term in the sender's name, first name or subject, ignoring case. */
  predicate MatchesSearch(term: string, m: Message)
  {
    var t := Lower(term);
    Contains(Lower(Or(SenderNom(m), m.expediteur)), t)
    || Contains(Lower(Or(SenderPrenom(m), None)), t)
    || Contains(Lower(Or(m.subject, m.objet)), t)
  }

  /** `filteredMessages`. */
  function FilteredMessages(messages: seq<Message>, term: string): seq<Message>
  {
    Filter(messages, (m: Message) => MatchesSearch(term, m))
  }

  /** The filter keeps a sub-list of the messages, and an empty search keeps all of them. */
  lemma FilterKeepsSubset(messages: seq<Message>, term: string)
    ensures multiset(FilteredMessages(messages, term)) <= multiset(messages)
    ensures forall m :: m in FilteredMessages(messages, term) ==> m in messages && MatchesSearch(term, m)
    ensures term == "" ==> FilteredMessages(messages, term) == messages
  {
    if term == "" {
      forall i | 0 <= i < |messages|
        ensures MatchesSearch(term, messages[i])
      {
        ContainsEmpty(Lower(Or(SenderNom(messages[i]), messages[i].expediteur)));
      }
      FilterAll(messages, (m: Message) => MatchesSearch(term, m));
    }
  }

  /** The content has not been loaded yet. */
  predicate NeedsContent(m: Message)
  {
    "content" !in m.fields || m.fields["content"] == ""
  }

  /** The later of two spread values: the second when the object has the field. */
  function Over<T>(a: Option<T>, b: Option<T>): Option<T>
  {
    if b.Some? then b else a
  }

  /** `{ ...msg, ...fullMsg }`: every field the fetched message has overrides the listed one. */
  function Merge(msg: Message, full: Message): Message
  {
    Message(full.id, Over(msg.from, full.from), Over(msg.expediteur, full.expediteur),
      Over(msg.subject, full.subject), Over(msg.objet, full.objet), msg.fields + full.fields)
  }

  /** `prev.map(m => m.id === id ? updated : m)`. */
  function ReplaceById(messages: seq<Message>, id: int, updated: Message): (r: seq<Message>)
    ensures |r| == |messages|
    ensures forall i :: 0 <= i < |r| ==> r[i] == (if messages[i].id == id then updated else messages[i])
  {
    Map(messages, (m: Message) => if m.id == id then updated else m)
  }

  class MessagesView {
    var messages: seq<Message>
    var selected: Option<Message>

    constructor (messages: seq<Message>)
      ensures this.messages == messages && selected.None?
    {
      this.messages := messages;
      selected := None;
    }

    /**
     * `handleSelectMessage(msg)`: the message is shown at once; when its
     * content is missing the detail is fetched (`fetched`, None when the
     * request failed), merged over it, and the merged message replaces
     * every listed message with that id and is shown instead.
     */
    method SelectMessage(msg: Message, fetched: Option<Message>)
      modifies this
      ensures !NeedsContent(msg) || fetched.None? ==> messages == old(messages) && selected == Some(msg)
      ensures NeedsContent(msg) && fetched.Some? ==>
        messages == ReplaceById(old(messages), msg.id, Merge(msg, fetched.value))
        && selected == Some(Merge(msg, fetched.value))
    {
      selected := Some(msg);
      if NeedsContent(msg) && fetched.Some? {
        var updated := Merge(msg, fetched.value);
        messages := ReplaceById(messages, msg.id, updated);
        selected := Some(updated);
      }
    }
  }

  /**
   * The merge keeps every field of the listed message that the fetched one
   * lacks and takes every field the fetched one has, so merging the same
   * detail twice changes nothing more.
   */
  lemma MergeFields(msg: Message, full: Message)
    ensures forall k :: k in full.fields ==> Merge(msg, full).fields[k] == full.fields[k]
    ensures forall k :: k in msg.fields && k !in full.fields ==> Merge(msg, full).fields[k] == msg.fields[k]
    ensures Merge(msg, full).fields.Keys == msg.fields.Keys + full.fields.Keys
    ensures full.from.None? ==> Merge(msg, full).from == msg.from
    ensures full.subject.Some? ==> Merge(msg, full).subject == full.subject
    ensures Merge(Merge(msg, full), full) == Merge(msg, full)
  {
  }
}
