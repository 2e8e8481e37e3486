/** The state logic of the chat interface: the message thread, the text
    input, the code-snippet editor, the "Hannah is typing" flag, and the
    scripted replies waiting on their timers. Every handler is a pure
    transition on an immutable `Chat`; a timer callback running is the
    separate transition `FireReply`. */
module Chat {
  import opened Optional
  import opened JsString

  datatype Sender = User | Hannah
  datatype Kind = Text | Code

  /** A chat message. `timestamp` is milliseconds since the epoch;
      `language` is set only on code messages. */
  datatype Message = Message(
    id: string,
    content: string,
    sender: Sender,
    timestamp: int,
    kind: Kind,
    language: Option<string>)

  /** A scripted reply whose timer has been set and has not fired yet. A
      code reply carries the language that was selected when the code was
      sent, since its callback closes over that value. */
  datatype Reply = TextReply | CodeReply(language: string)

  /** The component's state. `pending` lists the replies whose timers are
      still outstanding, in the order they were set. */
  datatype Chat = Chat(
    messages: seq<Message>,
    inputValue: string,
    isTyping: bool,
    showCodeInput: bool,
    codeSnippet: string,
    codeLanguage: string,
    pending: seq<Reply>)

  /** The state before any interaction, over a given initial thread. */
  function Initial(thread: seq<Message>): Chat {
    Chat(thread, "", false, false, "", "javascript", [])
  }

  /** The fixed text of the reply to a text message. */
  const TextReplyContent: string := "I understand your question. Let me help you with that..."

  /** The text of the reply to a code message in `language`. */
  function CodeReplyContent(language: string): (r: string)
    ensures OccursAt(r, language, 15)
  {
    "I can see your " + language + " code. Let me explain what this does and suggest improvements..."
  }

  /** The message a reply's timer appends. Its id is the `Date.now()`
      reading plus one, written in decimal; its time is the `new Date()`
      reading taken when the timer runs. */
  function ReplyMessage(p: Reply, idClock: nat, stamp: int): (m: Message)
    ensures m.sender == Hannah && m.kind == Text && m.language == None
    ensures m.id == DecimalString(idClock + 1)
    ensures m.timestamp == stamp
    ensures p.TextReply? ==> m.content == TextReplyContent
    ensures p.CodeReply? ==> m.content == CodeReplyContent(p.language)
  {
    var content := match p
      case TextReply => TextReplyContent
      case CodeReply(lang) => CodeReplyContent(lang);
    Message(DecimalString(idClock + 1), content, Hannah, stamp, Text, None)
  }

  // ---------------------------------------------------------------------
  // Handlers

  /** `handleSendMessage`: unless the input is only white space, append it
      as a user text message, clear the input, show the typing indicator and
      set the timer for the scripted reply. `idClock` is the `Date.now()`
      reading that becomes the id; `stamp` is the `new Date()` reading. */
  function SendText(c: Chat, idClock: nat, stamp: int): (r: Chat)
    ensures IsBlank(c.inputValue) ==> r == c
    ensures !IsBlank(c.inputValue) ==>
      && r.messages == c.messages + [Message(DecimalString(idClock), c.inputValue, User, stamp, Text, None)]
      && r.inputValue == ""
      && r.isTyping
      && r.pending == c.pending + [TextReply]
      && r.showCodeInput == c.showCodeInput
      && r.codeSnippet == c.codeSnippet
      && r.codeLanguage == c.codeLanguage
  {
    TrimEmptyIffBlank(c.inputValue, WhiteSpace);
    if Trim(c.inputValue, WhiteSpace) == [] then c
    else
      var m := Message(DecimalString(idClock), c.inputValue, User, stamp, Text, None);
      c.(messages := c.messages + [m], inputValue := "", isTyping := true,
         pending := c.pending + [TextReply])
  }

  /** The "Send Code" button: unless the snippet is only white space, append
      it as a user code message in the selected language, clear the snippet,
      close the editor and set the timer for a reply naming that language.
      The typing indicator is left as it is. */
  function SendCode(c: Chat, idClock: nat, stamp: int): (r: Chat)
    ensures IsBlank(c.codeSnippet) ==> r == c
    ensures !IsBlank(c.codeSnippet) ==>
      && r.messages == c.messages + [Message(DecimalString(idClock), c.codeSnippet, User, stamp, Code, Some(c.codeLanguage))]
      && r.codeSnippet == ""
      && !r.showCodeInput
      && r.pending == c.pending + [CodeReply(c.codeLanguage)]
      && r.isTyping == c.isTyping
      && r.inputValue == c.inputValue
      && r.codeLanguage == c.codeLanguage
  {
    TrimEmptyIffBlank(c.codeSnippet, WhiteSpace);
    if Trim(c.codeSnippet, WhiteSpace) == [] then c
    else
      var m := Message(DecimalString(idClock), c.codeSnippet, User, stamp, Code, Some(c.codeLanguage));
      c.(messages := c.messages + [m], codeSnippet := "", showCodeInput := false,
         pending := c.pending + [CodeReply(c.codeLanguage)])
  }

  /** A quick-action button: put its text in the input, without sending. */
  function QuickAction(c: Chat, action: string): (r: Chat)
    ensures r.inputValue == action
    ensures r.messages == c.messages && r.pending == c.pending && r.isTyping == c.isTyping
    ensures r.showCodeInput == c.showCodeInput && r.codeSnippet == c.codeSnippet
    ensures r.codeLanguage == c.codeLanguage
  {
    c.(inputValue := action)
  }

  /** The code button: open the snippet editor if closed, close it if open. */
  function ToggleCode(c: Chat): (r: Chat)
    ensures r.showCodeInput != c.showCodeInput
    ensures r.(showCodeInput := c.showCodeInput) == c
  {
    c.(showCodeInput := !c.showCodeInput)
  }

  /** The editor's "Cancel" button: close the editor, keeping the snippet. */
  function CancelCode(c: Chat): (r: Chat)
    ensures !r.showCodeInput
    ensures r.(showCodeInput := c.showCodeInput) == c
  {
    c.(showCodeInput := false)
  }

  /** The pending replies without the `i`-th. */
  function RemoveAt(ps: seq<Reply>, i: nat): (r: seq<Reply>)
    requires i < |ps|
    ensures |r| == |ps| - 1
    ensures forall j :: 0 <= j < i ==> r[j] == ps[j]
    ensures forall j :: i < j < |ps| ==> r[j - 1] == ps[j]
  {
    ps[..i] + ps[i + 1..]
  }

  /** The timer of the `i`-th pending reply runs: its message is appended
      and it leaves the queue. A text reply also hides the typing indicator,
      whether or not other replies are still pending. There is no timer to
      run when `i` is out of range, and nothing changes. */
  function FireReply(c: Chat, i: nat, idClock: nat, stamp: int): (r: Chat)
    ensures i >= |c.pending| ==> r == c
    ensures i < |c.pending| ==>
      && r.messages == c.messages + [ReplyMessage(c.pending[i], idClock, stamp)]
      && r.pending == c.pending[..i] + c.pending[i + 1..]
      && r.isTyping == (c.isTyping && c.pending[i].CodeReply?)
      && r.inputValue == c.inputValue && r.showCodeInput == c.showCodeInput
      && r.codeSnippet == c.codeSnippet && r.codeLanguage == c.codeLanguage
  {
    if i >= |c.pending| then c
    else
      var p := c.pending[i];
      c.(messages := c.messages + [ReplyMessage(p, idClock, stamp)],
         pending := RemoveAt(c.pending, i),
         isTyping := if p.TextReply? then false else c.isTyping)
  }

  // ---------------------------------------------------------------------
  // The chat as a state machine

  /** What can happen to the chat: the user's actions, and a pending
      reply's timer running. */
  datatype Event =
    | TypeInput(value: string)
    | SendTextEvent(idClock: nat, stamp: int)
    | QuickActionEvent(action: string)
    | ToggleCodeEvent
    | CancelCodeEvent
    | TypeCode(snippet: string)
    | SelectLanguage(language: string)
    | SendCodeEvent(idClock: nat, stamp: int)
    | FireReplyEvent(index: nat, idClock: nat, stamp: int)

  /** One event. The thread never loses or changes a message: it stays as
      it was or gains exactly one at the end. */
  function Step(c: Chat, e: Event): (r: Chat)
    ensures r.messages == c.messages
            || (|r.messages| == |c.messages| + 1 && r.messages[..|c.messages|] == c.messages)
  {
    match e
    case TypeInput(v) => c.(inputValue := v)
    case SendTextEvent(clock, stamp) => SendText(c, clock, stamp)
    case QuickActionEvent(action) => QuickAction(c, action)
    case ToggleCodeEvent => ToggleCode(c)
    case CancelCodeEvent => CancelCode(c)
    case TypeCode(v) => c.(codeSnippet := v)
    case SelectLanguage(l) => c.(codeLanguage := l)
    case SendCodeEvent(clock, stamp) => SendCode(c, clock, stamp)
    case FireReplyEvent(i, clock, stamp) => FireReply(c, i, clock, stamp)
  }

  /** A run of events, first to last. */
  function Run(c: Chat, es: seq<Event>): Chat
    decreases |es|
  {
    if es == [] then c else Run(Step(c, es[0]), es[1..])
  }

  /** Whatever happens, the old thread is a prefix of the new one, which has
      at most one more message per event. */
  lemma {:induction false} RunOnlyAppends(c: Chat, es: seq<Event>)
    ensures var r := Run(c, es);
      && |c.messages| <= |r.messages| <= |c.messages| + |es|
      && r.messages[..|c.messages|] == c.messages
    decreases |es|
  {
    if es != [] {
      var s := Step(c, es[0]);
      RunOnlyAppends(s, es[1..]);
      var r := Run(c, es);
      assert r == Run(s, es[1..]);
      assert r.messages[..|s.messages|][..|c.messages|] == r.messages[..|c.messages|];
    }
  }

  // ---------------------------------------------------------------------
  // Invariants

  /** The typing indicator is on only while a text reply is pending (it may
      be off while one is: the first text reply to fire turns it off). */
  ghost predicate TypingHasReply(c: Chat) {
    c.isTyping ==> TextReply in c.pending
  }

  lemma StepKeepsTypingHasReply(c: Chat, e: Event)
    requires TypingHasReply(c)
    ensures TypingHasReply(Step(c, e))
  {
    match e
    case FireReplyEvent(i, clock, stamp) =>
      if i < |c.pending| && c.pending[i].CodeReply? && c.isTyping {
        StillIn(c.pending, i, TextReply);
      }
    case _ =>
  }

  /** Removing an entry other than `x` keeps `x` in the sequence. */
  lemma StillIn<T>(ps: seq<T>, i: nat, x: T)
    requires i < |ps| && x in ps && ps[i] != x
    ensures x in ps[..i] + ps[i + 1..]
  {
    var j :| 0 <= j < |ps| && ps[j] == x;
    if j < i {
      assert (ps[..i] + ps[i + 1..])[j] == x;
    } else {
      assert (ps[..i] + ps[i + 1..])[j - 1] == x;
    }
  }

  /** The number of messages in `ms` from `s`. */
  function CountFrom(ms: seq<Message>, s: Sender): nat {
    if ms == [] then 0
    else CountFrom(ms[..|ms| - 1], s) + (if ms[|ms| - 1].sender == s then 1 else 0)
  }

  /** How many user messages are not matched by a reply from Hannah, beyond
      those whose reply is still pending. */
  function Unmatched(c: Chat): int {
    CountFrom(c.messages, User) - CountFrom(c.messages, Hannah) - |c.pending|
  }

  lemma CountFromAppend(ms: seq<Message>, m: Message, s: Sender)
    ensures CountFrom(ms + [m], s) == CountFrom(ms, s) + (if m.sender == s then 1 else 0)
  {
    assert (ms + [m])[..|ms|] == ms;
  }

  /** Every user message sets exactly one reply's timer and every timer
      appends exactly one reply: no event changes the balance between user
      messages, Hannah's messages and pending replies. */
  lemma StepKeepsUnmatched(c: Chat, e: Event)
    ensures Unmatched(Step(c, e)) == Unmatched(c)
  {
    match e
    case SendTextEvent(clock, stamp) =>
      if !IsBlank(c.inputValue) {
        var m := Message(DecimalString(clock), c.inputValue, User, stamp, Text, None);
        CountFromAppend(c.messages, m, User);
        CountFromAppend(c.messages, m, Hannah);
      }
    case SendCodeEvent(clock, stamp) =>
      if !IsBlank(c.codeSnippet) {
        var m := Message(DecimalString(clock), c.codeSnippet, User, stamp, Code, Some(c.codeLanguage));
        CountFromAppend(c.messages, m, User);
        CountFromAppend(c.messages, m, Hannah);
      }
    case FireReplyEvent(i, clock, stamp) =>
      if i < |c.pending| {
        var m := ReplyMessage(c.pending[i], clock, stamp);
        CountFromAppend(c.messages, m, User);
        CountFromAppend(c.messages, m, Hannah);
      }
    case _ =>
  }

  lemma {:induction false} RunKeepsInvariants(c: Chat, es: seq<Event>)
    requires TypingHasReply(c)
    ensures TypingHasReply(Run(c, es))
    ensures Unmatched(Run(c, es)) == Unmatched(c)
    decreases |es|
  {
    if es != [] {
      StepKeepsTypingHasReply(c, es[0]);
      StepKeepsUnmatched(c, es[0]);
      RunKeepsInvariants(Step(c, es[0]), es[1..]);
    }
  }

  /** Starting from a thread with as many user messages as messages from
      Hannah (the component's initial thread has two of each), at every
      later point the user messages outnumber Hannah's by exactly the number
      of pending replies, and the typing indicator is on only while a text
      reply is pending. */
  lemma RepliesBalanceFromStart(thread: seq<Message>, es: seq<Event>)
    requires CountFrom(thread, User) == CountFrom(thread, Hannah)
    ensures var r := Run(Initial(thread), es);
      && CountFrom(r.messages, User) == CountFrom(r.messages, Hannah) + |r.pending|
      && TypingHasReply(r)
  {
    RunKeepsInvariants(Initial(thread), es);
  }

  // ---------------------------------------------------------------------
  // Scenarios

  /** Sending text and then letting its timer run adds the user's message
      and then the scripted reply, in that order, and the indicator ends
      off. */
  lemma SendTextThenReply(c: Chat, idClock: nat, stamp: int, replyClock: nat, replyStamp: int)
    requires !IsBlank(c.inputValue)
    ensures var r := FireReply(SendText(c, idClock, stamp), |c.pending|, replyClock, replyStamp);
      && |r.messages| == |c.messages| + 2
      && r.messages[..|c.messages|] == c.messages
      && r.messages[|c.messages|].sender == User && r.messages[|c.messages|].content == c.inputValue
      && r.messages[|c.messages| + 1].sender == Hannah
      && r.messages[|c.messages| + 1].content == TextReplyContent
      && r.pending == c.pending
      && !r.isTyping
  {
    var s := SendText(c, idClock, stamp);
    var m := Message(DecimalString(idClock), c.inputValue, User, stamp, Text, None);
    assert s.pending == c.pending + [TextReply] && s.messages == c.messages + [m];
    FireLast(s, replyClock, replyStamp);
    assert s.pending[..|c.pending|] == c.pending;
    AppendTwo(c.messages, m, ReplyMessage(TextReply, replyClock, replyStamp));
  }

  /** The reply to a code message names the language selected when the code
      was sent, even if another language is selected before its timer
      runs. */
  lemma CodeReplyUsesSendTimeLanguage(c: Chat, idClock: nat, stamp: int, other: string,
                                      replyClock: nat, replyStamp: int)
    requires !IsBlank(c.codeSnippet)
    ensures var s := Step(SendCode(c, idClock, stamp), SelectLanguage(other));
      var r := FireReply(s, |c.pending|, replyClock, replyStamp);
      && r.codeLanguage == other
      && |r.messages| == |c.messages| + 2
      && r.messages[|c.messages| + 1].content == CodeReplyContent(c.codeLanguage)
  {
    var sent := SendCode(c, idClock, stamp);
    var m := Message(DecimalString(idClock), c.codeSnippet, User, stamp, Code, Some(c.codeLanguage));
    assert sent.pending == c.pending + [CodeReply(c.codeLanguage)] && sent.messages == c.messages + [m];
    var s := sent.(codeLanguage := other);
    assert Step(sent, SelectLanguage(other)) == s;
    FireLast(s, replyClock, replyStamp);
    AppendTwo(c.messages, m, ReplyMessage(CodeReply(c.codeLanguage), replyClock, replyStamp));
  }

  /** The messages the timers of `ps` append when they run in order. */
  function ReplyMessages(ps: seq<Reply>, idClock: nat, stamp: int): (ms: seq<Message>)
    ensures |ms| == |ps|
  {
    if ps == [] then []
    else ReplyMessages(ps[..|ps| - 1], idClock, stamp) + [ReplyMessage(ps[|ps| - 1], idClock, stamp)]
  }

  /** `r` is `c` after the timers of the first `k` pending entries have
      run, oldest first, all reading the clock as `idClock` and `stamp`. */
  ghost predicate DrainedUpTo(c: Chat, r: Chat, k: nat, idClock: nat, stamp: int) {
    && k <= |c.pending|
    && r.pending == c.pending[k..]
    && r.messages == c.messages + ReplyMessages(c.pending[..k], idClock, stamp)
    && r.isTyping == (c.isTyping && TextReply !in c.pending[..k])
    && r.inputValue == c.inputValue && r.codeSnippet == c.codeSnippet
    && r.showCodeInput == c.showCodeInput && r.codeLanguage == c.codeLanguage
  }

  /** Running the oldest timer after the first `k` have run adds the
      `k`-th entry's reply and leaves the entries after it. */
  lemma DrainStep(c: Chat, r: Chat, k: nat, idClock: nat, stamp: int)
    requires DrainedUpTo(c, r, k, idClock, stamp) && r.pending != []
    ensures DrainedUpTo(c, FireReply(r, 0, idClock, stamp), k + 1, idClock, stamp)
  {
    var m := ReplyMessage(c.pending[k], idClock, stamp);
    assert r.pending[0] == c.pending[k];
    PrefixExtend(c.pending, k, idClock, stamp);
    FireFirst(r, idClock, stamp);
    AppendAssoc(c.messages, ReplyMessages(c.pending[..k], idClock, stamp), [m]);
    DropFirst(c.pending, k);
  }

  /** Once nothing is pending, every entry of the original queue has run. */
  lemma DrainDone(c: Chat, r: Chat, k: nat, idClock: nat, stamp: int)
    requires DrainedUpTo(c, r, k, idClock, stamp) && r.pending == []
    ensures r.messages == c.messages + ReplyMessages(c.pending, idClock, stamp)
    ensures r.isTyping == (c.isTyping && TextReply !in c.pending)
  {
    assert k == |c.pending|;
    assert c.pending[..k] == c.pending;
  }

  /** Running the newest timer. */
  lemma FireLast(c: Chat, idClock: nat, stamp: int)
    requires c.pending != []
    ensures FireReply(c, |c.pending| - 1, idClock, stamp)
            == c.(messages := c.messages + [ReplyMessage(c.pending[|c.pending| - 1], idClock, stamp)],
                  pending := c.pending[..|c.pending| - 1],
                  isTyping := c.isTyping && c.pending[|c.pending| - 1].CodeReply?)
  {
    assert c.pending[|c.pending|..] == [];
  }

  lemma AppendTwo<T>(a: seq<T>, x: T, y: T)
    ensures |a + [x] + [y]| == |a| + 2
    ensures (a + [x] + [y])[..|a|] == a
    ensures (a + [x] + [y])[|a|] == x && (a + [x] + [y])[|a| + 1] == y
  {
  }

  lemma AppendAssoc<T>(a: seq<T>, b: seq<T>, c: seq<T>)
    ensures (a + b) + c == a + (b + c)
  {
  }

  lemma DropFirst<T>(s: seq<T>, k: nat)
    requires k < |s|
    ensures s[k..][1..] == s[k + 1..]
  {
  }

  /** Running the oldest timer. */
  lemma FireFirst(c: Chat, idClock: nat, stamp: int)
    requires c.pending != []
    ensures FireReply(c, 0, idClock, stamp)
            == c.(messages := c.messages + [ReplyMessage(c.pending[0], idClock, stamp)],
                  pending := c.pending[1..],
                  isTyping := c.isTyping && c.pending[0].CodeReply?)
  {
  }

  /** Extending a prefix of the queue by one entry adds that entry's reply
      to the replies of the prefix. */
  lemma PrefixExtend(ps: seq<Reply>, k: nat, idClock: nat, stamp: int)
    requires k < |ps|
    ensures ReplyMessages(ps[..k + 1], idClock, stamp)
            == ReplyMessages(ps[..k], idClock, stamp) + [ReplyMessage(ps[k], idClock, stamp)]
    ensures (TextReply in ps[..k + 1]) <==> (TextReply in ps[..k] || ps[k] == TextReply)
  {
    assert ps[..k + 1][..k] == ps[..k];
    assert ps[..k + 1] == ps[..k] + [ps[k]];
  }

  /** Every outstanding timer runs, oldest first, all within the same
      millisecond (each reads the clock as `idClock` and `stamp`, so the
      replies share one id): the thread gains one reply per pending entry,
      in order, and nothing is left pending. */
  method Drain(c: Chat, idClock: nat, stamp: int) returns (r: Chat)
    ensures r.pending == []
    ensures r.messages == c.messages + ReplyMessages(c.pending, idClock, stamp)
    ensures r.isTyping == (c.isTyping && TextReply !in c.pending)
    ensures r.inputValue == c.inputValue && r.codeSnippet == c.codeSnippet
    ensures r.showCodeInput == c.showCodeInput && r.codeLanguage == c.codeLanguage
  {
    r := c;
    var k := 0;
    assert c.pending[..0] == [] && c.pending[0..] == c.pending;
    while r.pending != []
      invariant DrainedUpTo(c, r, k, idClock, stamp)
      decreases |r.pending|
    {
      DrainStep(c, r, k, idClock, stamp);
      r := FireReply(r, 0, idClock, stamp);
      k := k + 1;
    }
    DrainDone(c, r, k, idClock, stamp);
  }
}
