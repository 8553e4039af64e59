/** The per-user conversation memory of consultarIA: a user turn is
    pushed and the history cut to its last MAX_HISTORIAL entries, then an
    assistant turn is pushed only when the completion service answered. */
module History {
  import opened Strings

  /** MAX_HISTORIAL */
  const MaxHistory := 10

  datatype Role = System | User | Assistant

  datatype Message = Message(role: Role, content: string)

  /** What the chat-completion request comes to: the content of the first
      choice, a body carrying an error field, or an exception (network
      failure, malformed body, no choices). */
  datatype Completion = Replied(content: string) | ServiceError | TransportError

  const ServiceErrorReply := "Disculpá, hubo un error. Escribinos directamente para ayudarte 🙏"

  const TransportErrorReply := "Disculpá, hubo un error técnico. Intentá de nuevo en un momento."

  /** The last n entries, or the whole history when it is shorter: for
      n > 0 what history.slice(-n) gives behind the length test of
      consultarIA (slice(-0) would be the whole history). */
  function KeepLast(history: seq<Message>, n: nat): (r: seq<Message>)
    ensures |r| == if |history| > n then n else |history|
    ensures r == history[|history| - |r|..]
  {
    if |history| > n then history[|history| - n..] else history
  }

  /** The user's history after the user turn is pushed and trimmed: at
      most ten entries, the most recent ones of the old history followed by
      the new turn, and all of them when there is room. */
  function PushUserTurn(history: seq<Message>, turn: Message): (r: seq<Message>)
    ensures |r| == if |history| < MaxHistory then |history| + 1 else MaxHistory
    ensures IsSuffix(r, history + [turn])
    ensures r[|r| - 1] == turn
  {
    KeepLast(history + [turn], MaxHistory)
  }

  /** The history after the completion: an assistant turn is recorded only
      for an answer, and no stored turn is lost. */
  function Record(history: seq<Message>, completion: Completion): (r: seq<Message>)
    ensures |r| == if completion.Replied? then |history| + 1 else |history|
    ensures r[..|history|] == history
    ensures completion.Replied? ==> r[|history|] == Message(Assistant, completion.content)
  {
    if completion.Replied? then history + [Message(Assistant, completion.content)] else history
  }

  /** The text consultarIA returns: the answer as it came, or one of the
      two fixed apologies. */
  function ReplyText(completion: Completion): (r: string)
    ensures completion.Replied? ==> r == completion.content
    ensures !completion.Replied? ==> r == ServiceErrorReply || r == TransportErrorReply
  {
    match completion
    case Replied(content) => content
    case ServiceError => ServiceErrorReply
    case TransportError => TransportErrorReply
  }

  /** The request body's messages: the system prompt, then the history.
      When the history holds no system turn, the prompt is the only one. */
  function Request(systemPrompt: string, history: seq<Message>): (r: seq<Message>)
    ensures |r| == |history| + 1 && r[0] == Message(System, systemPrompt) && r[1..] == history
    ensures (forall i :: 0 <= i < |history| ==> history[i].role != System) ==>
      forall i :: 1 <= i < |r| ==> r[i].role != System
  {
    [Message(System, systemPrompt)] + history
  }

  predicate IsSuffix(s: seq<Message>, t: seq<Message>) {
    |s| <= |t| && s == t[|t| - |s|..]
  }

  /** Trimming before more turns are appended keeps the same window as
      trimming once afterwards. In consultarIA the history is trimmed after
      the user's turn but not after the answer, so the next call's trim
      leaves the same ten entries as if every push had been trimmed:
      KeepLast(KeepLast(h + [u1], 10) + [a1, u2], 10) == KeepLast(h + [u1, a1, u2], 10). */
  lemma {:induction false} KeepLastSlides(history: seq<Message>, more: seq<Message>, n: nat)
    ensures KeepLast(KeepLast(history, n) + more, n) == KeepLast(history + more, n)
  {
    var k := KeepLast(history, n);
    var all := history + more;
    if |history| > n {
      assert k + more == all[|history| - n..];
      assert (k + more)[|k + more| - n..] == all[|all| - n..];
    } else {
      assert k == history;
    }
  }

  /** No system turn is stored and no two assistant turns are adjacent. */
  predicate TurnsAlternate(history: seq<Message>) {
    && (forall i :: 0 <= i < |history| ==> history[i].role != System)
    && (forall i :: 0 < i < |history| && history[i].role == Assistant ==> history[i - 1].role != Assistant)
  }

  /** A stored history: at most eleven entries whose turns alternate, and
      a history of eleven ends with the assistant's answer. */
  predicate WellFormed(history: seq<Message>) {
    && |history| <= MaxHistory + 1
    && TurnsAlternate(history)
    && (|history| == MaxHistory + 1 ==> history[MaxHistory].role == Assistant)
  }

  lemma SuffixAlternates(s: seq<Message>, t: seq<Message>)
    requires TurnsAlternate(t) && IsSuffix(s, t)
    ensures TurnsAlternate(s)
  {
    var off := |t| - |s|;
    assert forall i :: 0 <= i < |s| ==> s[i] == t[off + i];
  }

  lemma AppendAlternates(h: seq<Message>, m: Message)
    requires TurnsAlternate(h) && m.role != System
    requires m.role == Assistant && |h| > 0 ==> h[|h| - 1].role != Assistant
    ensures TurnsAlternate(h + [m])
  {
    assert forall i :: 0 <= i < |h| ==> (h + [m])[i] == h[i];
  }

  /** One exchange keeps a stored history well formed, for every outcome of
      the completion; only an answer makes it longer than ten. */
  lemma {:induction false} ExchangeKeepsWellFormed(history: seq<Message>, turn: Message, completion: Completion)
    requires WellFormed(history)
    requires turn.role == User
    ensures WellFormed(Record(PushUserTurn(history, turn), completion))
    ensures |Record(PushUserTurn(history, turn), completion)| > MaxHistory ==> completion.Replied?
  {
    var pushed := PushUserTurn(history, turn);
    AppendAlternates(history, turn);
    SuffixAlternates(pushed, history + [turn]);
    if completion.Replied? {
      AppendAlternates(pushed, Message(Assistant, completion.content));
    }
  }

  /** The request carries the system prompt and at most ten stored turns,
      the newest being the user's. */
  lemma RequestShape(systemPrompt: string, history: seq<Message>, turn: Message)
    ensures var r := Request(systemPrompt, PushUserTurn(history, turn));
      |r| <= MaxHistory + 1 && r[0] == Message(System, systemPrompt) && r[|r| - 1] == turn
  {
  }

  /** On an answer the reply is the newest stored turn; on either error the
      reply is the fixed apology and the newest stored turn stays the
      user's. */
  lemma ReplyRecorded(history: seq<Message>, turn: Message, completion: Completion)
    ensures var stored := Record(PushUserTurn(history, turn), completion);
      && |stored| > 0
      && (completion.Replied? ==> stored[|stored| - 1] == Message(Assistant, ReplyText(completion)))
      && (completion.ServiceError? ==> ReplyText(completion) == ServiceErrorReply && stored[|stored| - 1] == turn)
      && (completion.TransportError? ==> ReplyText(completion) == TransportErrorReply && stored[|stored| - 1] == turn)
  {
  }
}
