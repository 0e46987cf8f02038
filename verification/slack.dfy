/**
  The Slack front-end adapter: which incoming direct messages become new
  threads or messages of existing threads, the `Slack|<dm id>|<ts>` thread-id
  scheme, and the parsing of a thread id in `sendMessage`. Calls into the
  Slack client are not modelled; what the adapter would post is returned as
  a value.
 */
module Slack {
  import opened Common

  const ServiceName: string := "Slack"

  /** The fields of an incoming Slack message that the adapter reads. */
  datatype SlackMessage = SlackMessage(
    channelType: string,
    subtype: Option<string>,
    channel: string,
    ts: string,
    threadTs: Option<string>,   // `None` when the message has no `thread_ts` key
    user: Option<string>,
    text: Option<string>)

  /** The message subtypes the adapter handles; `None` is an ordinary message. */
  predicate AllowedSubtype(subtype: Option<string>) {
    subtype.None? || subtype.value in ["bot_message", "file_share", "me_message"]
  }

  /** What the message callback emits, if anything. */
  datatype SlackEvent =
    | Ignored
    | NewThread(thread: string, owner: Option<string>)
    | Message(text: string, thread: string)

  /**
    A thread id: the service name, the direct-message channel and the
    timestamp of the thread's top-level message, joined by `|`.
   */
  function ThreadId(channel: string, ts: string): string {
    ServiceName + "|" + channel + "|" + ts
  }

  /** When the channel and the timestamp carry no `|`, splitting a thread id gives the three pieces back. */
  lemma ThreadIdSplits(channel: string, ts: string)
    requires '|' !in channel && '|' !in ts
    ensures Split(ThreadId(channel, ts), '|') == [ServiceName, channel, ts]
  {
    SplitThree(ServiceName, channel, ts, '|');
    assert ThreadId(channel, ts) == ServiceName + ['|'] + channel + ['|'] + ts;
  }

  /**
    The message callback: only direct messages of an allowed subtype are
    handled; a top-level message opens a thread keyed by its own timestamp,
    owned by its sender when there is one; a reply is a message of the
    thread keyed by its parent's timestamp, with missing text read as empty.
   */
  function Classify(m: SlackMessage): (r: SlackEvent)
    ensures r.Ignored? <==> m.channelType != "im" || !AllowedSubtype(m.subtype)
    ensures r.NewThread? <==> !r.Ignored? && m.threadTs.None?
    ensures r.NewThread? ==> r.thread == ThreadId(m.channel, m.ts)
    ensures r.NewThread? ==> (r.owner.Some? <==> Truthy(m.user))
    ensures r.NewThread? && r.owner.Some? ==> r.owner.value == ServiceName + "|" + m.user.value
    ensures r.Message? ==> r.thread == ThreadId(m.channel, m.threadTs.value)
    ensures r.Message? ==> (r.text == "" <==> !Truthy(m.text))
    ensures r.Message? && Truthy(m.text) ==> r.text == m.text.value
  {
    if m.channelType != "im" then Ignored
    else if !AllowedSubtype(m.subtype) then Ignored
    else match m.threadTs
      case None =>
        var owner := if Truthy(m.user) then Some(ServiceName + "|" + m.user.value) else None;
        NewThread(ThreadId(m.channel, m.ts), owner)
      case Some(parent) =>
        Message(if Truthy(m.text) then m.text.value else "", ThreadId(m.channel, parent))
  }

  /** What `sendMessage` asks Slack to post; a missing piece posts without it. */
  datatype PostMessage = PostMessage(channel: Option<string>, threadTs: Option<string>, text: string)

  /**
    `sendMessage(content, thread)`: throws for a thread of another service,
    otherwise posts the text to the channel and thread named by the id.
   */
  function SendMessage(text: string, thread: string): (r: Result<PostMessage, ServiceError>)
    ensures r.Failure? <==> Split(thread, '|')[0] != ServiceName
    ensures r.Failure? ==> r.error == ForeignService(Split(thread, '|')[0])
    ensures r.Success? ==> r.value.text == text
    ensures r.Success? ==> r.value.channel == Part(Split(thread, '|'), 1)
    ensures r.Success? ==> r.value.threadTs == Part(Split(thread, '|'), 2)
  {
    var parts := Split(thread, '|');
    if parts[0] != ServiceName then Failure(ForeignService(parts[0]))
    else Success(PostMessage(Part(parts, 1), Part(parts, 2), text))
  }

  /**
    A thread id built from a channel and a timestamp without `|` in them is
    read back into the same channel and timestamp.
   */
  lemma ThreadIdRoundTrip(channel: string, ts: string, text: string)
    requires '|' !in channel && '|' !in ts
    ensures SendMessage(text, ThreadId(channel, ts)) == Success(PostMessage(Some(channel), Some(ts), text))
  {
    ThreadIdSplits(channel, ts);
  }

  /**
    Every thread the callback opens or writes to is one that the adapter's
    own `sendMessage` answers in: the same direct-message channel, inside the
    thread of the top-level message.
   */
  lemma ClassifiedThreadsAreReachable(m: SlackMessage, text: string)
    requires '|' !in m.channel && '|' !in m.ts
    requires m.threadTs.Some? ==> '|' !in m.threadTs.value
    ensures Classify(m).NewThread? ==>
              SendMessage(text, Classify(m).thread) == Success(PostMessage(Some(m.channel), Some(m.ts), text))
    ensures Classify(m).Message? ==>
              SendMessage(text, Classify(m).thread) == Success(PostMessage(Some(m.channel), m.threadTs, text))
  {
    if Classify(m).NewThread? {
      ThreadIdRoundTrip(m.channel, m.ts, text);
    } else if Classify(m).Message? {
      ThreadIdRoundTrip(m.channel, m.threadTs.value, text);
    }
  }

  /**
    A reply in a direct-message thread is routed to the thread its top-level
    message opened.
   */
  lemma ReplyJoinsParentThread(parent: SlackMessage, reply: SlackMessage)
    requires Classify(parent).NewThread?
    requires !Classify(reply).Ignored?
    requires reply.channel == parent.channel && reply.threadTs == Some(parent.ts)
    ensures Classify(reply).Message? && Classify(reply).thread == Classify(parent).thread
  {
  }

  /**
    Thread ids of different top-level messages differ when the pieces carry
    no separator, so two threads never share an id.
   */
  lemma ThreadIdInjective(c1: string, t1: string, c2: string, t2: string)
    requires '|' !in c1 && '|' !in t1 && '|' !in c2 && '|' !in t2
    requires ThreadId(c1, t1) == ThreadId(c2, t2)
    ensures c1 == c2 && t1 == t2
  {
    ThreadIdRoundTrip(c1, t1, "");
    ThreadIdRoundTrip(c2, t2, "");
  }
}
