/** The execution router: a hash chain over the results of committed transactions. */
module ExecutionRouter {
  import opened Bytes
  import opened HexText

  datatype Command = Command(commandType: Bytes, payload: Bytes)

  /** What the JSON decoder makes of a log entry: a command, or an error. */
  type Decoder = Bytes -> Option<Command>

  datatype Status = Failed | RolledBack | Committed

  datatype Cause = NoCause | Malformed | Unregistered | HandlerError

  datatype Receipt = Receipt(txID: Bytes, status: Status, stateRoot: Bytes, cause: Cause)

  datatype Router = Router(handlers: set<Bytes>, currentRoot: Bytes, receipts: map<Bytes, Receipt>)

  function FirstRoot(): Bytes {
    Ascii("exec_router_genesis")
  }

  function NewRouter(): Router {
    Router({}, FirstRoot(), map[])
  }

  // ----- one transaction

  /** The receipt of a transaction. `answer` is what the handler returns if it is called: a result, or an error. */
  function ReceiptFor(hash: Hash, decode: Decoder, r: Router, txID: Bytes, entry: Bytes, answer: Option<Bytes>): Receipt
  {
    match decode(entry)
    case None => Receipt(txID, Failed, [], Malformed)
    case Some(c) =>
      if c.commandType !in r.handlers then Receipt(txID, Failed, [], Unregistered)
      else match answer
           case None => Receipt(txID, RolledBack, [], HandlerError)
           case Some(result) => Receipt(txID, Committed, Hex(hash(r.currentRoot + result)), NoCause)
  }

  function ApplyTransactional(hash: Hash, decode: Decoder, r: Router, txID: Bytes, entry: Bytes,
                              answer: Option<Bytes>): (Router, Receipt)
  {
    var receipt := ReceiptFor(hash, decode, r, txID, entry, answer);
    (r.(currentRoot := if receipt.status.Committed? then receipt.stateRoot else r.currentRoot,
        receipts := r.receipts[txID := receipt]), receipt)
  }

  class ExecutionRouter {
    const hash: Hash
    const decode: Decoder
    var handlers: set<Bytes>
    var currentRoot: Bytes
    var receipts: map<Bytes, Receipt>

    ghost function View(): Router
      reads this
    {
      Router(handlers, currentRoot, receipts)
    }

    constructor (hash: Hash, decode: Decoder)
      ensures this.hash == hash && this.decode == decode && View() == NewRouter()
      ensures handlers == {} && receipts == map[] && currentRoot == Ascii("exec_router_genesis")
    {
      this.hash, this.decode := hash, decode;
      handlers, currentRoot, receipts := {}, Ascii("exec_router_genesis"), map[];
    }

    method RegisterHandler(commandType: Bytes)
      modifies this`handlers
      ensures handlers == old(handlers) + {commandType}
    {
      handlers := handlers + {commandType};
    }

    method RunTransaction(txID: Bytes, entry: Bytes, answer: Option<Bytes>) returns (receipt: Receipt)
      modifies this
      ensures (View(), receipt) == ApplyTransactional(hash, decode, old(View()), txID, entry, answer)
    {
      match decode(entry) {
        case None =>
          receipt := Receipt(txID, Failed, [], Malformed);
        case Some(cmd) =>
          if cmd.commandType !in handlers {
            receipt := Receipt(txID, Failed, [], Unregistered);
          } else {
            var backupRoot := currentRoot;
            match answer {
              case None =>
                currentRoot := backupRoot;
                receipt := Receipt(txID, RolledBack, [], HandlerError);
              case Some(resultRoot) =>
                currentRoot := Hex(hash(currentRoot + resultRoot));
                receipt := Receipt(txID, Committed, currentRoot, NoCause);
            }
          }
      }
      receipts := receipts[txID := receipt];
    }

    method GetReceipt(txID: Bytes) returns (receipt: Option<Receipt>)
      ensures receipt == if txID in receipts then Some(receipts[txID]) else None
    {
      if txID !in receipts { return None; }
      return Some(receipts[txID]);
    }
  }

  // ----- runs

  datatype Event = Register(commandType: Bytes) | Transaction(txID: Bytes, entry: Bytes, answer: Option<Bytes>)

  function Step(hash: Hash, decode: Decoder, r: Router, e: Event): Router {
    match e
    case Register(t) => r.(handlers := r.handlers + {t})
    case Transaction(id, entry, answer) => ApplyTransactional(hash, decode, r, id, entry, answer).0
  }

  function Exec(hash: Hash, decode: Decoder, events: seq<Event>): Router {
    if events == [] then NewRouter() else
      Step(hash, decode, Exec(hash, decode, events[..|events| - 1]), events[|events| - 1])
  }

  ghost predicate Commits(decode: Decoder, registered: set<Bytes>, e: Event) {
    e.Transaction? && e.answer.Some? && decode(e.entry).Some? && decode(e.entry).value.commandType in registered
  }

  ghost predicate Registers(decode: Decoder, registered: set<Bytes>, e: Event) {
    e.Transaction? && decode(e.entry).Some? && decode(e.entry).value.commandType in registered
  }

  /** The types registered by a run. */
  ghost function Registered(events: seq<Event>): set<Bytes> {
    if events == [] then {} else
      Registered(events[..|events| - 1])
      + if events[|events| - 1].Register? then {events[|events| - 1].commandType} else {}
  }

  /** The results of the transactions that commit: decoded, registered by then, and answered without an error. */
  ghost function Results(decode: Decoder, events: seq<Event>): seq<Bytes> {
    if events == [] then [] else
      var before, e := events[..|events| - 1], events[|events| - 1];
      Results(decode, before) + if Commits(decode, Registered(before), e) then [e.answer.value] else []
  }

  /** The chain over a list of results. */
  function Chain(hash: Hash, results: seq<Bytes>): Bytes {
    if results == [] then FirstRoot() else
      Hex(hash(Chain(hash, results[..|results| - 1]) + results[|results| - 1]))
  }

  lemma {:induction false} HandlersAreRegistered(hash: Hash, decode: Decoder, events: seq<Event>)
    ensures Exec(hash, decode, events).handlers == Registered(events)
  {
    if events != [] {
      HandlersAreRegistered(hash, decode, events[..|events| - 1]);
    }
  }

  /** After any run the root is the chain over the committed results; failures and rollbacks leave no trace in it. */
  lemma {:induction false} RootIsChain(hash: Hash, decode: Decoder, events: seq<Event>)
    ensures Exec(hash, decode, events).currentRoot == Chain(hash, Results(decode, events))
  {
    if events != [] {
      var before, e := events[..|events| - 1], events[|events| - 1];
      RootIsChain(hash, decode, before);
      HandlersAreRegistered(hash, decode, before);
      var results := Results(decode, before);
      if Commits(decode, Registered(before), e) {
        var more := results + [e.answer.value];
        assert Results(decode, events) == more;
        assert more[..|more| - 1] == results;
      } else {
        assert Results(decode, events) == results;
      }
    }
  }

  /** What the receipt of a transaction says, given the types registered by then and the root before it. */
  ghost predicate Tells(hash: Hash, decode: Decoder, registered: set<Bytes>, root: Bytes, e: Event, receipt: Receipt)
    requires e.Transaction?
  {
    && receipt.txID == e.txID
    && (receipt.cause == Malformed <==> decode(e.entry) == None)
    && (receipt.cause == Unregistered <==> decode(e.entry).Some? && !Registers(decode, registered, e))
    && (receipt.cause == HandlerError <==> Registers(decode, registered, e) && e.answer.None?)
    && (receipt.cause == NoCause <==> Commits(decode, registered, e))
    && (receipt.status == RolledBack <==> receipt.cause == HandlerError)
    && (receipt.status == Committed <==> receipt.cause == NoCause)
    && (Commits(decode, registered, e) ==> receipt.stateRoot == Hex(hash(root + e.answer.value)))
    && (!Commits(decode, registered, e) ==> receipt.stateRoot == [])
  }

  /**
   The receipt kept for an id is the one of its last transaction, and says what became of it; a committed one names the
   root of its prefix.
  */
  lemma {:induction false} ReceiptIsLast(hash: Hash, decode: Decoder, events: seq<Event>, k: nat)
    requires k < |events| && events[k].Transaction?
    requires forall j :: k < j < |events| && events[j].Transaction? ==> events[j].txID != events[k].txID
    ensures var r := Exec(hash, decode, events);
            && events[k].txID in r.receipts
            && var receipt := r.receipts[events[k].txID];
            && Tells(hash, decode, Registered(events[..k]), Exec(hash, decode, events[..k]).currentRoot, events[k],
                     receipt)
            && (receipt.status.Committed? ==> receipt.stateRoot == Chain(hash, Results(decode, events[..k + 1])))
    decreases |events|
  {
    var before, e := events[..|events| - 1], events[|events| - 1];
    if k < |events| - 1 {
      ReceiptIsLast(hash, decode, before, k);
      assert before[..k] == events[..k] && before[..k + 1] == events[..k + 1];
    } else {
      assert events[..k] == before && events[..k + 1] == events;
      HandlersAreRegistered(hash, decode, before);
      RootIsChain(hash, decode, events);
    }
  }

  /** A receipt is kept for exactly the ids that some transaction of the run had. */
  lemma {:induction false} ReceiptKeptIff(hash: Hash, decode: Decoder, events: seq<Event>, id: Bytes)
    ensures id in Exec(hash, decode, events).receipts
            <==> exists k :: 0 <= k < |events| && events[k].Transaction? && events[k].txID == id
  {
    if events != [] {
      var before := events[..|events| - 1];
      ReceiptKeptIff(hash, decode, before, id);
      if k :| 0 <= k < |before| && before[k].Transaction? && before[k].txID == id {
        assert events[k] == before[k];
      }
      if k :| 0 <= k < |events| && events[k].Transaction? && events[k].txID == id && k < |before| {
        assert before[k] == events[k];
      }
    }
  }

  // ----- binding

  /** Everything hashed for a chain. */
  ghost function Inputs(hash: Hash, results: seq<Bytes>): set<Bytes> {
    if results == [] then {} else
      var before := results[..|results| - 1];
      Inputs(hash, before) + {Chain(hash, before) + results[|results| - 1]}
  }

  /** The text of a digest can never be mistaken for the first root, or be extended to it: `x` is not a digit. */
  lemma FirstRootIsNotHex(d: Digest, r: Bytes, s: Bytes)
    ensures Hex(d) + r != FirstRoot() + s
  {
    HexAlphabet(d, 1);
    assert (Hex(d) + r)[1] == Hex(d)[1];
    assert (FirstRoot() + s)[1] == FirstRoot()[1] == 0x78;
  }

  lemma SplitRoots(a: Digest, b: Digest, r: Bytes, s: Bytes)
    requires Hex(a) + r == Hex(b) + s
    ensures Hex(a) == Hex(b) && r == s
  {
    assert |Hex(a)| == |Hex(b)| == 64;
    assert Hex(a) == (Hex(a) + r)[..64] && Hex(b) == (Hex(b) + s)[..64];
    assert r == (Hex(a) + r)[64..] && s == (Hex(b) + s)[64..];
  }

  /** The last link: equal inputs have equal prefixes of the chain and equal last results. */
  lemma LinkBinds(hash: Hash, a: seq<Bytes>, b: seq<Bytes>, r: Bytes, s: Bytes)
    requires Chain(hash, a) + r == Chain(hash, b) + s
    ensures Chain(hash, a) == Chain(hash, b) && r == s
  {
    var first := FirstRoot();
    if a == [] && b == [] {
      assert r == (first + r)[|first|..] && s == (first + s)[|first|..];
    } else if a == [] {
      FirstRootIsNotHex(hash(Chain(hash, b[..|b| - 1]) + b[|b| - 1]), s, r);
    } else if b == [] {
      FirstRootIsNotHex(hash(Chain(hash, a[..|a| - 1]) + a[|a| - 1]), r, s);
    } else {
      SplitRoots(hash(Chain(hash, a[..|a| - 1]) + a[|a| - 1]), hash(Chain(hash, b[..|b| - 1]) + b[|b| - 1]), r, s);
    }
  }

  /** Equal roots mean equal result lists, of whatever lengths, unless two of the hashed inputs collide. */
  lemma {:induction false} ChainBinds(hash: Hash, a: seq<Bytes>, b: seq<Bytes>)
    requires Chain(hash, a) == Chain(hash, b)
    ensures a == b || Collide(hash, Inputs(hash, a), Inputs(hash, b))
    decreases |a|
  {
    if a == [] || b == [] {
      ChainLength(hash, a);
      ChainLength(hash, b);
    } else {
      var a', r := a[..|a| - 1], a[|a| - 1];
      var b', s := b[..|b| - 1], b[|b| - 1];
      var x, y := Chain(hash, a') + r, Chain(hash, b') + s;
      HexInjective(hash(x), hash(y));
      if x != y {
        assert x in Inputs(hash, a) && y in Inputs(hash, b) && Collision(hash, x, y);
      } else {
        LinkBinds(hash, a', b', r, s);
        ChainBinds(hash, a', b');
        if a' == b' {
          assert a == a' + [r] && b == b' + [s];
        } else {
          var p, q :| p in Inputs(hash, a') && q in Inputs(hash, b') && Collision(hash, p, q);
          assert p in Inputs(hash, a) && q in Inputs(hash, b);
        }
      }
    }
  }

  lemma ChainLength(hash: Hash, results: seq<Bytes>)
    ensures |Chain(hash, results)| == if results == [] then 19 else 64
  {
  }

  /** Two routers with one root committed the same results, collisions apart. */
  lemma EqualRootsEqualResults(hash: Hash, decode: Decoder, p: seq<Event>, q: seq<Event>)
    ensures Results(decode, p) == Results(decode, q) ==>
              Exec(hash, decode, p).currentRoot == Exec(hash, decode, q).currentRoot
    ensures Exec(hash, decode, p).currentRoot == Exec(hash, decode, q).currentRoot ==>
              Results(decode, p) == Results(decode, q)
              || Collide(hash, Inputs(hash, Results(decode, p)), Inputs(hash, Results(decode, q)))
  {
    RootIsChain(hash, decode, p);
    RootIsChain(hash, decode, q);
    if Exec(hash, decode, p).currentRoot == Exec(hash, decode, q).currentRoot {
      ChainBinds(hash, Results(decode, p), Results(decode, q));
    }
  }
}
