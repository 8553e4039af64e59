/** The module-level state of index.js (productos, ultimaActualizacion and
    conversaciones) and the operations that update it: cargarProductos,
    productosActualizados and consultarIA. The clock, the two fetches, the
    price formatter and the fixed text that opens the system prompt are
    parameters. */
module Bot {
  import opened Options
  import opened Strings
  import opened Retrieval
  import opened Links
  import opened Grounding
  import opened Summary
  import opened Cache
  import opened History

  /** The stored user turn: the user's words followed by the grounding
      block for the products found. It opens with the user's own words,
      and what follows them announces products exactly when some were
      found. */
  function UserTurn(message: string, found: seq<Scored>, formatPrice: string -> string): (r: Message)
    ensures r.role == User
    ensures StartsWith(r.content, message)
    ensures |found| > 0 <==> StartsWith(r.content[|message|..], FoundHeader)
  {
    var context := ProductContext(message, found, formatPrice);
    assert (message + context)[..|message|] == message;
    assert (message + context)[|message|..] == context;
    Message(User, message + context)
  }

  /** The stored turn carries the link of every product found. */
  lemma UserTurnGrounded(message: string, found: seq<Scored>, formatPrice: string -> string)
    ensures forall i :: 0 <= i < |found| ==>
      Contains(UserTurn(message, found, formatPrice).content, ProductLink(found[i].product.code))
  {
    var context := ProductContext(message, found, formatPrice);
    forall i | 0 <= i < |found|
      ensures Contains(message + context, ProductLink(found[i].product.code))
    {
      ContextListsProduct(message, found, formatPrice, i);
      ContainsInSuffix(message, context, ProductLink(found[i].product.code));
    }
  }

  /** The first half of consultarIA once the listing is known: the
      products found and the grounding block of the user turn, and the
      category summary of the system prompt. */
  method Ground(message: string, listing: seq<Product>, formatPrice: string -> string)
    returns (turn: Message, summary: string)
    ensures turn == UserTurn(message, Search(message, listing), formatPrice)
    ensures summary == CatalogText(listing)
  {
    var found := Search(message, listing);
    var context := ProductContext(message, found, formatPrice);
    summary := CatalogSummary(listing);
    turn := Message(User, message + context);
  }

  /** Storing twice under one key keeps the second value only. */
  lemma UpdateTwice(m: map<string, seq<Message>>, k: string, a: seq<Message>, b: seq<Message>)
    ensures m[k := a][k := b] == m[k := b]
  {
  }

  /** Every stored history is well formed. */
  ghost predicate AllWellFormed(conversations: map<string, seq<Message>>) {
    forall user :: user in conversations ==> WellFormed(conversations[user])
  }

  lemma StoreKeepsWellFormed(conversations: map<string, seq<Message>>, user: string, history: seq<Message>)
    requires AllWellFormed(conversations) && WellFormed(history)
    ensures AllWellFormed(conversations[user := history])
  {
  }

  function StoredHistory(conversations: map<string, seq<Message>>, user: string): seq<Message> {
    if user in conversations then conversations[user] else []
  }

  class Bot {
    /** productos */
    var products: seq<Product>
    /** ultimaActualizacion, in milliseconds; None is null. */
    var lastUpdate: Option<int>
    /** conversaciones, keyed by the sender's WhatsApp id. */
    var conversations: map<string, seq<Message>>

    function Catalog(): CacheState
      reads this
    {
      CacheState(products, lastUpdate)
    }

    ghost predicate Valid()
      reads this
    {
      AllWellFormed(conversations)
    }

    constructor()
      ensures Catalog() == Initial && conversations == map[]
      ensures Valid()
    {
      products := [];
      lastUpdate := None;
      conversations := map[];
    }

    /** cargarProductos */
    method LoadProducts(outcome: FetchOutcome, completedAt: int)
      modifies this
      ensures Catalog() == AfterLoad(old(Catalog()), outcome, completedAt)
      ensures conversations == old(conversations)
    {
      match outcome
      case Fetched(listing) =>
        products := listing;
        lastUpdate := Some(completedAt);
      case HttpError(_) =>
      case Failed =>
    }

    /** productosActualizados */
    method CurrentProducts(now: int, outcome: FetchOutcome, completedAt: int) returns (listing: seq<Product>)
      modifies this
      ensures Catalog() == AfterCurrent(old(Catalog()), now, outcome, completedAt)
      ensures listing == products
      ensures conversations == old(conversations)
    {
      var due := lastUpdate.None? || MinutesSince(lastUpdate.value, now) >= RefreshMinutes as real || |products| == 0;
      if due {
        LoadProducts(outcome, completedAt);
      }
      listing := products;
    }

    /** The push of the user turn and the trim to the last MAX_HISTORIAL
        entries. */
    method PushTurn(user: string, turn: Message)
      requires user in conversations
      modifies this
      ensures Catalog() == old(Catalog())
      ensures conversations == old(conversations)[user := PushUserTurn(old(conversations)[user], turn)]
    {
      ghost var before := conversations[user];
      conversations := conversations[user := conversations[user] + [turn]];
      if |conversations[user]| > MaxHistory {
        var history := conversations[user];
        conversations := conversations[user := history[|history| - MaxHistory..]];
      }
      UpdateTwice(old(conversations), user, before + [turn], PushUserTurn(before, turn));
    }

    /** What follows the request: the reply, and the assistant turn that
        only an answer adds. */
    method RecordReply(user: string, completion: Completion) returns (reply: string)
      requires user in conversations
      modifies this
      ensures Catalog() == old(Catalog())
      ensures conversations == old(conversations)[user := Record(old(conversations)[user], completion)]
      ensures reply == ReplyText(completion)
    {
      match completion
      case ServiceError =>
        reply := ServiceErrorReply;
      case TransportError =>
        reply := TransportErrorReply;
      case Replied(content) =>
        conversations := conversations[user := conversations[user] + [Message(Assistant, content)]];
        reply := content;
    }

    /** The second half of consultarIA: the user turn is pushed and the
        history trimmed, the request is built from the system prompt and
        the trimmed history, and the completion decides the reply and
        whether an assistant turn is recorded. */
    method Exchange(user: string, turn: Message, systemPrompt: string, completion: Completion)
      returns (reply: string, request: seq<Message>)
      requires Valid() && user in conversations && turn.role == User
      modifies this
      ensures Valid()
      ensures Catalog() == old(Catalog())
      ensures var pushed := PushUserTurn(old(conversations)[user], turn);
              && request == Request(systemPrompt, pushed)
              && conversations == old(conversations)[user := Record(pushed, completion)]
              && reply == ReplyText(completion)
    {
      ghost var before := conversations[user];
      PushTurn(user, turn);
      request := Request(systemPrompt, conversations[user]);
      reply := RecordReply(user, completion);
      UpdateTwice(old(conversations), user, PushUserTurn(before, turn), Record(PushUserTurn(before, turn), completion));
      ExchangeKeepsWellFormed(before, turn, completion);
      StoreKeepsWellFormed(old(conversations), user, Record(PushUserTurn(before, turn), completion));
    }

    /** The history of a user, the empty one when there is none yet. */
    method OpenHistory(user: string)
      requires Valid()
      modifies this
      ensures Valid() && Catalog() == old(Catalog())
      ensures conversations == old(conversations)[user := StoredHistory(old(conversations), user)]
    {
      if user !in conversations {
        conversations := conversations[user := []];
      }
    }

    method Consult(user: string, message: string, now: int, fetch: FetchOutcome, fetchedAt: int,
                   completion: Completion, promptHead: string, formatPrice: string -> string)
      returns (reply: string, request: seq<Message>)
      requires Valid()
      modifies this
      ensures Valid()
      ensures Catalog() == AfterCurrent(old(Catalog()), now, fetch, fetchedAt)
      ensures var pushed := PushUserTurn(StoredHistory(old(conversations), user), UserTurn(message, Search(message, products), formatPrice));
              && request == Request(promptHead + CatalogText(products), pushed)
              && conversations == old(conversations)[user := Record(pushed, completion)]
              && reply == ReplyText(completion)
    {
      OpenHistory(user);
      ghost var withUser := conversations;
      var listing := CurrentProducts(now, fetch, fetchedAt);
      var turn, summary := Ground(message, listing, formatPrice);
      reply, request := Exchange(user, turn, promptHead + summary, completion);
      UpdateTwice(old(conversations), user, StoredHistory(old(conversations), user), Record(PushUserTurn(StoredHistory(old(conversations), user), turn), completion));
    }
  }
}
