/**
  The SimpleX front-end adapter: the check for profiles that may be
  incognito, the `SimpleX|<contactId>` thread-id scheme with its parsing in
  `sendMessage` and `closeChat`, and the mapping from SimpleX chat events to
  the events the adapter emits. Calls into the SimpleX chat client are not modelled; what
  the adapter would ask the client to do is returned as an action.
 */
module Simplex {
  import opened Common

  const ServiceName: string := "SimpleX"

  datatype Profile = Profile(
    displayName: string,
    fullName: string,
    contactLink: Option<string>,
    image: Option<string>)

  // ---------------------------------------------------------------------
  // couldBeIncognito

  predicate IsUpper(c: char) { 'A' <= c <= 'Z' }
  predicate IsLower(c: char) { 'a' <= c <= 'z' }

  predicate AllLower(s: string) {
    forall k :: 0 <= k < |s| ==> IsLower(s[k])
  }

  /**
    The names SimpleX generates for incognito profiles, read off the pattern
    `^[A-Z][a-z]*[A-Z][a-z]*$`: an uppercase letter, lowercase letters, a
    second uppercase letter at some position `k`, lowercase letters, nothing
    else.
   */
  ghost predicate RandomNameShape(s: string) {
    exists k :: 1 <= k < |s| && IsUpper(s[0]) && AllLower(s[1..k]) && IsUpper(s[k]) && AllLower(s[k + 1..])
  }

  /** States of the automaton that runs the pattern over a name. */
  datatype MatchState = Start | FirstWord | SecondWord | Rejected

  function Step(st: MatchState, c: char): MatchState {
    match st
    case Start => if IsUpper(c) then FirstWord else Rejected
    case FirstWord => if IsLower(c) then FirstWord else if IsUpper(c) then SecondWord else Rejected
    case SecondWord => if IsLower(c) then SecondWord else Rejected
    case Rejected => Rejected
  }

  function Run(st: MatchState, s: string): MatchState
    decreases |s|
  {
    if s == [] then st else Run(Step(st, s[0]), s[1..])
  }


  lemma {:induction false} RunRejected(s: string)
    ensures Run(Rejected, s) == Rejected
  {
    if s != [] {
      RunRejected(s[1..]);
    }
  }

  lemma {:induction false} RunSecondWord(s: string)
    ensures Run(SecondWord, s) == SecondWord <==> AllLower(s)
  {
    if s != [] {
      RunSecondWord(s[1..]);
      if !IsLower(s[0]) {
        RunRejected(s[1..]);
      } else {
        assert AllLower(s) <==> AllLower(s[1..]) by {
          if AllLower(s[1..]) {
            forall k | 0 <= k < |s| ensures IsLower(s[k]) {
              if k > 0 { assert s[k] == s[1..][k - 1]; }
            }
          }
        }
      }
    }
  }

  /** The rest of a name after its first uppercase letter. */
  ghost predicate FirstWordRest(s: string) {
    exists k :: 0 <= k < |s| && AllLower(s[..k]) && IsUpper(s[k]) && AllLower(s[k + 1..])
  }

  lemma FirstWordRestLower(s: string)
    requires s != [] && IsLower(s[0])
    ensures FirstWordRest(s) <==> FirstWordRest(s[1..])
  {
    if FirstWordRest(s[1..]) { FirstWordRestExtend(s); }
    if FirstWordRest(s) { FirstWordRestShrink(s); }
  }

  lemma FirstWordRestExtend(s: string)
    requires s != [] && IsLower(s[0]) && FirstWordRest(s[1..])
    ensures FirstWordRest(s)
  {
    var t := s[1..];
    var k :| 0 <= k < |t| && AllLower(t[..k]) && IsUpper(t[k]) && AllLower(t[k + 1..]);
    var head := s[..k + 1];
    forall j | 0 <= j < |head| ensures IsLower(head[j]) {
      if j > 0 { assert head[j] == t[..k][j - 1]; }
    }
    assert s[k + 2..] == t[k + 1..];
    assert IsUpper(s[k + 1]);
  }

  lemma FirstWordRestShrink(s: string)
    requires s != [] && IsLower(s[0]) && FirstWordRest(s)
    ensures FirstWordRest(s[1..])
  {
    var t := s[1..];
    var k :| 0 <= k < |s| && AllLower(s[..k]) && IsUpper(s[k]) && AllLower(s[k + 1..]);
    assert k != 0;
    assert t[..k - 1] == s[1..k];
    var head := t[..k - 1];
    forall j | 0 <= j < |head| ensures IsLower(head[j]) {
      assert head[j] == s[..k][j + 1];
    }
    assert t[k..] == s[k + 1..];
    assert IsUpper(t[k - 1]);
  }

  lemma FirstWordRestUpper(s: string)
    requires s != [] && IsUpper(s[0])
    ensures FirstWordRest(s) <==> AllLower(s[1..])
  {
    if AllLower(s[1..]) {
      assert AllLower(s[..0]) && IsUpper(s[0]) && AllLower(s[0 + 1..]);
    }
    if FirstWordRest(s) {
      var k :| 0 <= k < |s| && AllLower(s[..k]) && IsUpper(s[k]) && AllLower(s[k + 1..]);
      assert k == 0;
    }
  }

  lemma {:induction false} RunFirstWord(s: string)
    ensures Run(FirstWord, s) == SecondWord <==> FirstWordRest(s)
  {
    if s != [] {
      var c := s[0];
      if IsLower(c) {
        RunFirstWord(s[1..]);
        FirstWordRestLower(s);
      } else if IsUpper(c) {
        RunSecondWord(s[1..]);
        FirstWordRestUpper(s);
      } else {
        RunRejected(s[1..]);
      }
    }
  }

  lemma ShapeIsMatched(name: string)
    requires RandomNameShape(name)
    ensures Run(Start, name) == SecondWord
  {
    var rest := name[1..];
    var k :| 1 <= k < |name| && IsUpper(name[0]) && AllLower(name[1..k]) && IsUpper(name[k]) && AllLower(name[k + 1..]);
    var first, second := rest[..k - 1], rest[k..];
    forall j | 0 <= j < |first| ensures IsLower(first[j]) {
      assert first[j] == name[1..k][j];
    }
    forall j | 0 <= j < |second| ensures IsLower(second[j]) {
      assert second[j] == name[k + 1..][j];
    }
    assert AllLower(rest[..k - 1]) && IsUpper(rest[k - 1]) && AllLower(rest[k - 1 + 1..]);
    RunFirstWord(rest);
  }

  lemma MatchedHasShape(name: string)
    requires Run(Start, name) == SecondWord
    ensures RandomNameShape(name)
  {
    if name == [] || !IsUpper(name[0]) {
      if name != [] { RunRejected(name[1..]); }
      assert false;
    }
    var rest := name[1..];
    RunFirstWord(rest);
    var k :| 0 <= k < |rest| && AllLower(rest[..k]) && IsUpper(rest[k]) && AllLower(rest[k + 1..]);
    assert rest[..k] == name[1..k + 1];
    assert rest[k + 1..] == name[k + 2..];
    assert AllLower(name[1..k + 1]) && IsUpper(name[k + 1]) && AllLower(name[k + 1 + 1..]);
  }

  /** The automaton accepts exactly the names of the pattern's shape. */
  lemma AutomatonAcceptsShape(name: string)
    ensures Run(Start, name) == SecondWord <==> RandomNameShape(name)
  {
    if RandomNameShape(name) { ShapeIsMatched(name); }
    if Run(Start, name) == SecondWord { MatchedHasShape(name); }
  }

  /** Whether the incognito-name pattern matches the whole name. */
  function MatchesRandomName(name: string): (r: bool)
    ensures r <==> RandomNameShape(name)
  {
    AutomatonAcceptsShape(name);
    Run(Start, name) == SecondWord
  }

  /**
    `couldBeIncognito(profile)`: no contact link, no full name, no image, and
    a display name of the shape SimpleX generates for incognito profiles.
   */
  function CouldBeIncognito(profile: Profile): (r: bool)
    ensures r <==>
      && !Truthy(profile.contactLink)
      && profile.fullName == ""
      && !Truthy(profile.image)
      && RandomNameShape(profile.displayName)
  {
    if Truthy(profile.contactLink) then false
    else if profile.fullName != "" then false
    else if Truthy(profile.image) then false
    else MatchesRandomName(profile.displayName)
  }

  // ---------------------------------------------------------------------
  // Numbers in thread ids: `contactId.toFixed()` and `parseInt(id, 10)`

  predicate IsDigit(c: char) { '0' <= c <= '9' }

  predicate AllDigits(s: string) {
    forall k :: 0 <= k < |s| ==> IsDigit(s[k])
  }

  function DigitChar(d: nat): (c: char)
    requires d < 10
    ensures IsDigit(c) && c as int - '0' as int == d
  {
    ('0' as int + d) as char
  }

  /** `n.toFixed()` for a non-negative whole number: its decimal digits. */
  function Decimal(n: nat): (s: string)
    ensures |s| >= 1 && AllDigits(s)
  {
    if n < 10 then [DigitChar(n)] else Decimal(n / 10) + [DigitChar(n % 10)]
  }

  /** The number a string of decimal digits denotes. */
  function DigitsValue(s: string): nat
    requires AllDigits(s)
  {
    if s == [] then 0
    else 10 * DigitsValue(s[..|s| - 1]) + (s[|s| - 1] as int - '0' as int)
  }

  /** The digits `parseInt` reads: the longest prefix of decimal digits. */
  function DigitPrefix(s: string): (p: string)
    ensures |p| <= |s| && p == s[..|p|] && AllDigits(p)
    ensures |p| < |s| ==> !IsDigit(s[|p|])
  {
    if |s| == 0 || !IsDigit(s[0]) then ""
    else [s[0]] + DigitPrefix(s[1..])
  }

  /**
    `parseInt(s, 10)`: an optional sign, then the leading decimal digits;
    `NaN` (here `None`) when there are none.
   */
  function ParseInt(s: string): (r: Option<int>)
    ensures r.None? <==> DigitPrefix(if |s| > 0 && (s[0] == '-' || s[0] == '+') then s[1..] else s) == ""
    ensures s != "" && AllDigits(s) ==> r == Some(DigitsValue(s))
  {
    assert s != "" && AllDigits(s) ==> IsDigit(s[0]) && DigitPrefix(s) == s;
    var negative := |s| > 0 && s[0] == '-';
    var body := if |s| > 0 && (s[0] == '-' || s[0] == '+') then s[1..] else s;
    var digits := DigitPrefix(body);
    if digits == "" then None
    else
      var magnitude: int := DigitsValue(digits);
      Some(if negative then -magnitude else magnitude)
  }

  /**
    `parseInt` of a piece of a split thread id: a piece that destructuring
    left `undefined` gives `NaN`, and a piece of digits gives its value.
   */
  function ParsePart(part: Option<string>): (r: Option<int>)
    ensures part.None? ==> r.None?
    ensures part.Some? && part.value != "" && AllDigits(part.value) ==> r == Some(DigitsValue(part.value))
  {
    match part
    case None => None
    case Some(s) => ParseInt(s)
  }

  lemma {:induction false} DecimalValue(n: nat)
    ensures DigitsValue(Decimal(n)) == n
  {
    if n >= 10 {
      var s := Decimal(n);
      DecimalValue(n / 10);
      assert s[..|s| - 1] == Decimal(n / 10);
    }
  }

  /** Reading back the digits `toFixed` writes gives the number again. */
  lemma ParseDecimal(n: nat)
    ensures ParseInt(Decimal(n)) == Some(n)
  {
    DecimalValue(n);
  }

  // ---------------------------------------------------------------------
  // Thread ids

  /**
    A thread id: the service name and the contact id's decimal digits, joined
    by `|`. It splits into exactly those two pieces, and the second one reads
    back as the contact id.
   */
  function ThreadId(contactId: nat): (id: string)
    ensures Split(id, '|') == [ServiceName, Decimal(contactId)]
    ensures ParsePart(Part(Split(id, '|'), 1)) == Some(contactId)
  {
    var d := Decimal(contactId);
    assert '|' !in d;
    SplitTwo(ServiceName, d, '|');
    ParseDecimal(contactId);
    assert ServiceName + "|" + d == ServiceName + ['|'] + d;
    ServiceName + "|" + d
  }

  /** Different contacts get different thread ids. */
  lemma ThreadIdInjective(a: nat, b: nat)
    requires ThreadId(a) == ThreadId(b)
    ensures a == b
  {
    DecimalValue(a);
    DecimalValue(b);
  }

  /** What `sendMessage` asks the chat client to do. */
  datatype SendText = SendText(contactId: Option<int>, text: string)

  /**
    `sendMessage(content, thread)`: throws for a thread of another service,
    otherwise sends the text to the contact parsed from the id. A failure of
    the send itself is caught and logged inside, so it does not surface.
   */
  function SendMessage(text: string, thread: string): (r: Result<SendText, ServiceError>)
    ensures r.Failure? <==> Split(thread, '|')[0] != ServiceName
    ensures r.Failure? ==> r.error == ForeignService(Split(thread, '|')[0])
    ensures r.Success? ==> r.value.text == text
  {
    var parts := Split(thread, '|');
    if parts[0] != ServiceName then Failure(ForeignService(parts[0]))
    else Success(SendText(ParsePart(Part(parts, 1)), text))
  }

  /**
    What `closeChat` does: delete the contact's chat, or log that the thread
    belongs to another service. The outer `catch` swallows the error, so
    `closeChat` never throws.
   */
  datatype CloseOutcome = DeleteChat(contactId: Option<int>) | LoggedForeignService(service: string)

  function CloseChat(thread: string): (r: CloseOutcome)
    ensures r.LoggedForeignService? <==> Split(thread, '|')[0] != ServiceName
  {
    var parts := Split(thread, '|');
    if parts[0] != ServiceName then LoggedForeignService(parts[0])
    else DeleteChat(ParsePart(Part(parts, 1)))
  }

  /** The adapter's own thread ids reach the contact they were built from. */
  lemma ThreadIdRoundTrip(contactId: nat, text: string)
    ensures SendMessage(text, ThreadId(contactId)) == Success(SendText(Some(contactId), text))
    ensures CloseChat(ThreadId(contactId)) == DeleteChat(Some(contactId))
  {
  }

  // ---------------------------------------------------------------------
  // Chat events to emitted events

  datatype Contact = Contact(contactId: nat, profile: Profile)

  /** `chatInfo.type`: only direct chats carry a contact. */
  datatype ChatInfo = Direct(contact: Contact) | NotDirect

  /** `chatItem.content`: only received messages carry text. */
  datatype ItemContent = RcvMsgContent(text: Option<string>) | OtherContent

  datatype ChatItem = ChatItem(chatInfo: ChatInfo, content: ItemContent)

  datatype ChatEvent =
    | ContactConnected(contact: Contact, userCustomProfile: Option<Profile>)
    | NewChatItems(chatItems: seq<ChatItem>)
    | ContactDeletedByContact(contact: Contact)
    | OtherEvent

  /**
    What handling an event does: an event the adapter emits, or a
    message the adapter sends through the chat client on the bot's main
    address (the welcome text, a link to a new chat).
   */
  datatype Action =
    | EmitNewThread(thread: string, owner: string)
    | EmitMessage(text: string, thread: string)
    | EmitCloseThread(thread: string)
    | SendWelcome(contactId: nat)
    | SendNewChatLink(contactId: nat)

  predicate IsEmitted(a: Action) {
    a.EmitNewThread? || a.EmitMessage? || a.EmitCloseThread?
  }

  /** The owner string of a new thread: the display name, or the full name when that is empty. */
  function Owner(profile: Profile): (owner: string)
    ensures |owner| > |ServiceName| && owner[..|ServiceName| + 1] == ServiceName + "|"
  {
    ServiceName + "|" + (if profile.displayName != "" then profile.displayName else profile.fullName)
  }

  /**
    One entry of `newChatItems`. `contactInfo` stands for `apiContactInfo`:
    `Some(true)` when the contact has a custom user profile (it is a thread),
    `Some(false)` when it is the main chat, `None` when the call throws, which
    the per-entry `catch` logs.
   */
  function ItemActions(item: ChatItem, contactInfo: nat -> Option<bool>): (acts: seq<Action>)
    ensures |acts| <= 1
    ensures !item.chatInfo.Direct? || !item.content.RcvMsgContent? ==> acts == []
    ensures item.chatInfo.Direct? && item.content.RcvMsgContent? ==>
              var contactId := item.chatInfo.contact.contactId;
              && (contactInfo(contactId) == Some(true) ==>
                    acts == [EmitMessage(item.content.text.GetOr(""), ThreadId(contactId))])
              && (contactInfo(contactId) == Some(false) ==> acts == [SendNewChatLink(contactId)])
              && (contactInfo(contactId).None? ==> acts == [])
  {
    match item.chatInfo
    case NotDirect => []
    case Direct(contact) =>
      match item.content
      case OtherContent => []
      case RcvMsgContent(text) =>
        match contactInfo(contact.contactId)
        case None => []
        case Some(isThread) =>
          if isThread then [EmitMessage(text.GetOr(""), ThreadId(contact.contactId))]
          else [SendNewChatLink(contact.contactId)]
  }

  /** The `for … of` loop over `chatItems`: each entry handled in turn. */
  function ItemsActions(items: seq<ChatItem>, contactInfo: nat -> Option<bool>): (acts: seq<Action>)
    ensures |acts| <= |items|
  {
    if items == [] then []
    else ItemActions(items[0], contactInfo) + ItemsActions(items[1..], contactInfo)
  }

  /** `handleChatEvent`: the actions one chat event leads to, in order. */
  function HandleChatEvent(event: ChatEvent, contactInfo: nat -> Option<bool>): (acts: seq<Action>)
    ensures event.OtherEvent? ==> acts == []
    ensures event.ContactConnected? ==>
              |acts| == 1 && (IsEmitted(acts[0]) <==> event.userCustomProfile.Some?)
    ensures event.ContactConnected? && event.userCustomProfile.None? ==>
              acts == [SendWelcome(event.contact.contactId)]
    ensures event.NewChatItems? ==> |acts| <= |event.chatItems|
  {
    match event
    case ContactConnected(contact, userCustomProfile) =>
      if userCustomProfile.None? then [SendWelcome(contact.contactId)]
      else [EmitNewThread(ThreadId(contact.contactId), Owner(contact.profile))]
    case NewChatItems(items) => ItemsActions(items, contactInfo)
    case ContactDeletedByContact(contact) => [EmitCloseThread(ThreadId(contact.contactId))]
    case OtherEvent => []
  }

  /** Entries are handled independently and in order. */
  lemma {:induction false} ItemsActionsAppend(a: seq<ChatItem>, b: seq<ChatItem>, contactInfo: nat -> Option<bool>)
    ensures ItemsActions(a + b, contactInfo) == ItemsActions(a, contactInfo) + ItemsActions(b, contactInfo)
  {
    if a == [] {
      assert a + b == b;
    } else {
      assert (a + b)[0] == a[0];
      assert (a + b)[1..] == a[1..] + b;
      ItemsActionsAppend(a[1..], b, contactInfo);
    }
  }

  /**
    A thread contact's connection opens a thread whose id names the contact
    and whose owner is the contact's display name, or full name when the
    display name is empty.
   */
  lemma ContactConnectedOpensThread(contact: Contact, custom: Profile, text: string, contactInfo: nat -> Option<bool>)
    ensures HandleChatEvent(ContactConnected(contact, Some(custom)), contactInfo) ==
              [EmitNewThread(ThreadId(contact.contactId), Owner(contact.profile))]
    ensures SendMessage(text, ThreadId(contact.contactId)) == Success(SendText(Some(contact.contactId), text))
    ensures contact.profile.displayName != "" ==> Owner(contact.profile) == "SimpleX|" + contact.profile.displayName
    ensures contact.profile.displayName == "" ==> Owner(contact.profile) == "SimpleX|" + contact.profile.fullName
  {
    ThreadIdRoundTrip(contact.contactId, "");
  }

  /** A contact deleting the chat closes the thread that reaches that contact. */
  lemma ContactDeletedClosesThread(contact: Contact, contactInfo: nat -> Option<bool>)
    ensures HandleChatEvent(ContactDeletedByContact(contact), contactInfo) == [EmitCloseThread(ThreadId(contact.contactId))]
    ensures CloseChat(ThreadId(contact.contactId)) == DeleteChat(Some(contact.contactId))
  {
    ThreadIdRoundTrip(contact.contactId, "");
  }

  /** The action relays an entry's received text, `''` when absent, to the thread of the contact that sent it. */
  predicate RelaysEntry(a: Action, item: ChatItem) {
    && item.chatInfo.Direct? && item.content.RcvMsgContent?
    && a == EmitMessage(item.content.text.GetOr(""), ThreadId(item.chatInfo.contact.contactId))
  }

  /**
    Every event emitted for chat items relays one of the entries to
    the thread of the contact that sent it, and `sendMessage` and `closeChat`
    on that thread reach that same contact.
   */
  lemma {:induction false} ItemsReachTheirContacts(items: seq<ChatItem>, contactInfo: nat -> Option<bool>, text: string)
    ensures forall k :: 0 <= k < |ItemsActions(items, contactInfo)| && IsEmitted(ItemsActions(items, contactInfo)[k]) ==>
              exists j ::
                && 0 <= j < |items|
                && RelaysEntry(ItemsActions(items, contactInfo)[k], items[j])
                && SendMessage(text, ItemsActions(items, contactInfo)[k].thread) ==
                     Success(SendText(Some(items[j].chatInfo.contact.contactId), text))
                && CloseChat(ItemsActions(items, contactInfo)[k].thread) ==
                     DeleteChat(Some(items[j].chatInfo.contact.contactId))
  {
    if items != [] {
      var head := ItemActions(items[0], contactInfo);
      var tail := ItemsActions(items[1..], contactInfo);
      ItemsReachTheirContacts(items[1..], contactInfo, text);
      assert ItemsActions(items, contactInfo) == head + tail;
      forall k | 0 <= k < |head + tail| && IsEmitted((head + tail)[k])
        ensures exists j ::
                  && 0 <= j < |items|
                  && RelaysEntry((head + tail)[k], items[j])
                  && SendMessage(text, (head + tail)[k].thread) == Success(SendText(Some(items[j].chatInfo.contact.contactId), text))
                  && CloseChat((head + tail)[k].thread) == DeleteChat(Some(items[j].chatInfo.contact.contactId))
      {
        if k < |head| {
          ThreadIdRoundTrip(items[0].chatInfo.contact.contactId, text);
          assert RelaysEntry((head + tail)[k], items[0]);
        } else {
          var a := tail[k - |head|];
          assert (head + tail)[k] == a;
          var j :| && 0 <= j < |items[1..]|
                   && RelaysEntry(a, items[1..][j])
                   && SendMessage(text, a.thread) == Success(SendText(Some(items[1..][j].chatInfo.contact.contactId), text))
                   && CloseChat(a.thread) == DeleteChat(Some(items[1..][j].chatInfo.contact.contactId));
          assert items[1..][j] == items[j + 1];
        }
      }
    }
  }
}
