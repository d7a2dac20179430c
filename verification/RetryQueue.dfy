/** The retry and dead-letter queue: in-memory backend queues plus one status row per message. */
module RetryQueue {
  import opened Digraphs
  import opened Values
  import D = Checkpoints

  type Payload = map<string, Json>

  const RETRY_KEY := "__af_retry_count"
  const INTERNAL_PREFIX := "__af_"
  const DLQ_SUFFIX := ".dlq"

  datatype Item = Item(id: nat, queue: string, payload: Payload, attempts: nat)

  datatype Status = Queued | Processing | Acknowledged | FailedAttempt

  datatype Row = Row(queue: string, payload: Payload, status: Status, attempts: nat)

  /** Message ids come from a counter, standing for fresh uuids. */
  datatype Backend = Backend(queues: map<string, seq<Item>>, rows: map<nat, Row>, nextId: nat)

  function Queue(b: Backend, q: string): seq<Item> {
    if q in b.queues then b.queues[q] else []
  }

  /** `int(payload.get(key, 0))`: `None` where that raises. */
  function ReadCount(p: Payload): Option<int> {
    if RETRY_KEY !in p then Some(0)
    else
      match p[RETRY_KEY]
      case Number(n) => Some(n)
      case Text(t) => ParseInt(t)
      case _ => None
  }

  function RetryCount(p: Payload): int {
    match ReadCount(p)
    case Some(n) => n
    case None => 0
  }

  predicate IsSpace(c: char) {
    c == ' ' || c == '\t' || c == '\n' || c == '\r'
  }

  function Strip(s: string): string {
    if s == "" then ""
    else if IsSpace(s[0]) then Strip(s[1..])
    else if IsSpace(s[|s| - 1]) then Strip(s[..|s| - 1])
    else s
  }

  /** Text as `int` reads it: blanks around it, a sign, digits with single underscores between them. */
  function ParseInt(s: string): Option<int> {
    var t := Strip(s);
    if t == "" then None
    else if t[0] == '+' then ParseDigits(t[1..])
    else if t[0] == '-' then
      match ParseDigits(t[1..])
      case Some(n) => Some(-n)
      case None => None
    else ParseDigits(t)
  }

  function ParseDigits(t: string): Option<int> {
    if t == "" || !('0' <= t[|t| - 1] <= '9') then None
    else
      var last := t[|t| - 1] as int - '0' as int;
      if |t| == 1 then Some(last)
      else
        match ParseDigits(if t[|t| - 2] == '_' then t[..|t| - 2] else t[..|t| - 1])
        case Some(n) => Some(10 * n + last)
        case None => None
  }

  /** What the worker hands to the handler. */
  function UserPart(p: Payload): Payload {
    map k | k in p && !Internal(k) :: p[k]
  }

  predicate Internal(key: string) {
    INTERNAL_PREFIX <= key
  }

  ghost predicate UserPayload(p: Payload) {
    forall k :: k in p ==> !Internal(k)
  }

  lemma RetryKeyIsInternal()
    ensures Internal(RETRY_KEY)
  {
    assert RETRY_KEY[..|INTERNAL_PREFIX|] == INTERNAL_PREFIX;
  }

  function DeadLetters(q: string): string {
    q + DLQ_SUFFIX
  }

  predicate IsDeadLetterName(q: string) {
    |q| >= |DLQ_SUFFIX| && q[|q| - |DLQ_SUFFIX|..] == DLQ_SUFFIX
  }

  // ---------------------------------------------------------------- the four operations on the backend

  function Push(b: Backend, q: string, p: Payload): Backend {
    Backend(b.queues[q := Queue(b, q) + [Item(b.nextId, q, p, 0)]],
            b.rows[b.nextId := Row(q, p, Queued, 0)],
            b.nextId + 1)
  }

  function Mark(b: Backend, id: nat, status: Status, delivered: nat): Backend {
    if id in b.rows then
      var row := b.rows[id].(status := status, attempts := b.rows[id].attempts + delivered);
      b.(rows := b.rows[id := row])
    else
      b
  }

  function Pop(b: Backend, q: string): Backend
    requires Queue(b, q) != []
  {
    Mark(b.(queues := b.queues[q := Queue(b, q)[1..]]), Queue(b, q)[0].id, Processing, 1)
  }

  function RetryPayload(item: Item): Payload {
    item.payload[RETRY_KEY := Number(RetryCount(item.payload) + 1)]
  }

  function FailureQueue(item: Item, maxAttempts: int): string {
    if RetryCount(item.payload) + 1 < maxAttempts then item.queue else DeadLetters(item.queue)
  }

  function Fail(b: Backend, item: Item, maxAttempts: int): Backend {
    Push(Mark(b, item.id, FailedAttempt, 0), FailureQueue(item, maxAttempts), RetryPayload(item))
  }

  // ---------------------------------------------------------------- what the operations do, entry by entry

  /** A push puts one message at the end of its queue and one fresh row; nothing else changes. */
  lemma PushMeans(b: Backend, q: string, p: Payload)
    ensures
      var after := Push(b, q, p);
      && Queue(after, q) == Queue(b, q) + [Item(b.nextId, q, p, 0)]
      && (forall r :: r != q ==> Queue(after, r) == Queue(b, r))
      && after.rows == b.rows[b.nextId := Row(q, p, Queued, 0)] && after.nextId == b.nextId + 1
  {
  }

  /** Marking changes the status and the attempts of one row, if there is one. */
  lemma MarkMeans(b: Backend, id: nat, status: Status, delivered: nat)
    ensures
      var after := Mark(b, id, status, delivered);
      && after.queues == b.queues && after.nextId == b.nextId && after.rows.Keys == b.rows.Keys
      && (forall k :: k in b.rows && k != id ==> after.rows[k] == b.rows[k])
      && (id in b.rows ==>
            && after.rows[id].queue == b.rows[id].queue && after.rows[id].payload == b.rows[id].payload
            && after.rows[id].status == status && after.rows[id].attempts == b.rows[id].attempts + delivered)
  {
  }

  /** A pop takes the first message off its queue and marks its row as processing, once more attempted. */
  lemma PopMeans(b: Backend, q: string)
    requires Queue(b, q) != []
    ensures
      var after, head := Pop(b, q), Queue(b, q)[0];
      && Queue(b, q) == [head] + Queue(after, q) && (forall r :: r != q ==> Queue(after, r) == Queue(b, r))
      && (head.id in b.rows ==>
            head.id in after.rows && after.rows[head.id].status == Processing
            && after.rows[head.id].attempts == b.rows[head.id].attempts + 1)
  {
  }

  /** A failure marks the row and queues the payload again with the raised count: in its own queue while
      attempts are left, in the queue named after it with ".dlq" when they are used up. */
  lemma FailMeans(b: Backend, item: Item, maxAttempts: int, count: int)
    requires ReadCount(item.payload) == Some(count)
    ensures
      var after := Fail(b, item, maxAttempts);
      var q := if count + 1 < maxAttempts then item.queue else item.queue + ".dlq";
      var p := item.payload["__af_retry_count" := Number(count + 1)];
      && Queue(after, q) == Queue(b, q) + [Item(b.nextId, q, p, 0)]
      && (forall r :: r != q ==> Queue(after, r) == Queue(b, r))
      && (item.id in b.rows && item.id != b.nextId ==>
            item.id in after.rows && after.rows[item.id].status == FailedAttempt
            && after.rows[item.id].attempts == b.rows[item.id].attempts)
  {
  }

  /** Counts written as text are read as the numbers they are. */
  lemma {:induction false} DecimalIsRead(n: nat)
    ensures ParseDigits(D.Decimal(n)) == Some(n)
  {
    if n >= 10 {
      var t := D.Decimal(n / 10);
      DecimalIsRead(n / 10);
      LastIsDigit(n / 10);
      assert (t + [D.Digit(n % 10)])[..|t|] == t;
      assert (t + [D.Digit(n % 10)])[|t| - 1] == t[|t| - 1];
    }
  }

  lemma LastIsDigit(n: nat)
    ensures D.Decimal(n)[|D.Decimal(n)| - 1] == D.Digit(n % 10)
    ensures D.Digit(n % 10) != '_' && !IsSpace(D.Digit(n % 10))
  {
  }

  /** So are negative ones; and blanks before them do not matter. */
  lemma SignedIsRead(n: int)
    requires n >= 0
    ensures ParseInt(['-'] + D.Decimal(n)) == Some(-n)
  {
    DecimalIsRead(n);
    LastIsDigit(n);
    NothingToStrip('-', D.Decimal(n));
    MinusIsRead(D.Decimal(n), n);
  }

  lemma MinusIsRead(d: string, n: int)
    requires Strip(['-'] + d) == ['-'] + d && ParseDigits(d) == Some(n)
    ensures ParseInt(['-'] + d) == Some(-n)
  {
    assert (['-'] + d)[1..] == d;
  }

  lemma BlanksAreSkipped(s: string)
    ensures ParseInt([' '] + s) == ParseInt(s)
  {
    assert ([' '] + s)[1..] == s;
    assert Strip([' '] + s) == Strip(s);
  }

  lemma NothingToStrip(c: char, d: string)
    requires !IsSpace(c) && d != "" && !IsSpace(d[|d| - 1])
    ensures Strip([c] + d) == [c] + d
  {
    assert ([c] + d)[|[c] + d| - 1] == d[|d| - 1];
  }

  // ---------------------------------------------------------------- what happened to every original

  datatype Place =
    | Waiting(id: nat)
    | InFlight(id: nat, item: Item)
    | Done(id: nat)
    | Dead(id: nat)

  /** One enqueued message with everything that became of it. */
  datatype Original = Original(queue: string, payload: Payload, place: Place, deliveries: nat)

  /** `origin` maps each message id to the original it carries. */
  datatype History = History(originals: map<nat, Original>, origin: map<nat, nat>)

  function Ids(s: seq<Item>): set<nat> {
    set item | item in s :: item.id
  }

  function StatusFor(o: Original, id: nat): Status {
    if o.place.id != id then FailedAttempt
    else match o.place
         case Waiting(_) => Queued
         case InFlight(_, _) => Processing
         case Done(_) => Acknowledged
         case Dead(_) => Queued
  }

  function HomeQueue(o: Original): string {
    if o.place.Dead? then DeadLetters(o.queue) else o.queue
  }

  /** A queued message carries the user payload of its original and the number of failed deliveries. */
  ghost predicate Seated(h: History, q: string, item: Item) {
    && item.queue == q && item.id in h.origin && h.origin[item.id] in h.originals
    && var o := h.originals[h.origin[item.id]];
       && (o.place == Waiting(item.id) || o.place == Dead(item.id))
       && q == HomeQueue(o)
       && UserPart(item.payload) == o.payload && ReadCount(item.payload) == Some(o.deliveries)
  }

  ghost predicate Accounted(b: Backend, maxAttempts: int, o: Original) {
    && !IsDeadLetterName(o.queue) && UserPayload(o.payload)
    && match o.place
       case Waiting(id) => o.deliveries < maxAttempts && id in Ids(Queue(b, o.queue))
       case InFlight(id, item) =>
         && item.id == id && item.queue == o.queue && UserPart(item.payload) == o.payload
         && ReadCount(item.payload) == Some(o.deliveries - 1) && 1 <= o.deliveries <= maxAttempts
       case Done(_) => 1 <= o.deliveries <= maxAttempts
       case Dead(id) => o.deliveries == maxAttempts && id in Ids(Queue(b, DeadLetters(o.queue)))
  }

  ghost predicate DistinctItems(s: seq<Item>) {
    forall i, j :: 0 <= i < j < |s| ==> s[i].id != s[j].id
  }

  ghost predicate Registered(b: Backend, h: History, id: nat)
    requires id in h.origin
  {
    && id < b.nextId && id in b.rows && h.origin[id] in h.originals
    && b.rows[id].status == StatusFor(h.originals[h.origin[id]], id)
  }

  ghost predicate RowsAgree(b: Backend, h: History) {
    b.rows.Keys == h.origin.Keys && forall id :: id in h.origin ==> Registered(b, h, id)
  }

  ghost predicate QueuesAgree(b: Backend, h: History) {
    && (forall q, item :: item in Queue(b, q) ==> Seated(h, q, item))
    && (forall q :: DistinctItems(Queue(b, q)))
  }

  ghost predicate Traceable(h: History, k: nat)
    requires k in h.originals
  {
    && k in h.origin && h.origin[k] == k
    && h.originals[k].place.id in h.origin && h.origin[h.originals[k].place.id] == k
  }

  ghost predicate OriginalsAgree(b: Backend, h: History, maxAttempts: int) {
    forall k :: k in h.originals ==> Traceable(h, k) && Accounted(b, maxAttempts, h.originals[k])
  }

  ghost predicate Consistent(b: Backend, h: History, maxAttempts: int) {
    RowsAgree(b, h) && QueuesAgree(b, h) && OriginalsAgree(b, h, maxAttempts)
  }

  // ---------------------------------------------------------------- history after each operation

  function Enqueued(h: History, id: nat, q: string, p: Payload): History {
    History(h.originals[id := Original(q, p, Waiting(id), 0)], h.origin[id := id])
  }

  /** What the consumer receives: the queued message with its attempt counter raised. */
  function Copy(item: Item): Item {
    item.(attempts := item.attempts + 1)
  }

  function Delivery(o: Original, item: Item): Original {
    o.(place := InFlight(item.id, Copy(item)), deliveries := o.deliveries + 1)
  }

  function Delivered(h: History, item: Item): History
    requires item.id in h.origin && h.origin[item.id] in h.originals
  {
    h.(originals := h.originals[h.origin[item.id] := Delivery(h.originals[h.origin[item.id]], item)])
  }

  ghost predicate Known(h: History, id: nat) {
    id in h.origin && h.origin[id] in h.originals
  }

  /** Exactly this delivery is out with a consumer. */
  ghost predicate OutWith(h: History, item: Item) {
    Known(h, item.id) && h.originals[h.origin[item.id]].place == InFlight(item.id, item)
  }

  /** The message is out with a consumer. */
  ghost predicate Delivering(h: History, id: nat) {
    && id in h.origin && h.origin[id] in h.originals
    && h.originals[h.origin[id]].place.InFlight? && h.originals[h.origin[id]].place.id == id
  }

  function Succeeded(h: History, id: nat): History
    requires id in h.origin && h.origin[id] in h.originals
  {
    var k := h.origin[id];
    h.(originals := h.originals[k := h.originals[k].(place := Done(id))])
  }

  function Failed(h: History, item: Item, newId: nat, maxAttempts: int): History
    requires item.id in h.origin && h.origin[item.id] in h.originals
  {
    var k := h.origin[item.id];
    var place := if RetryCount(item.payload) + 1 < maxAttempts then Waiting(newId) else Dead(newId);
    History(h.originals[k := h.originals[k].(place := place)], h.origin[newId := k])
  }

  // ---------------------------------------------------------------- every operation keeps the books

  lemma DeadLetterNames(q: string)
    ensures IsDeadLetterName(DeadLetters(q))
  {
  }

  lemma IdsAppend(s: seq<Item>, x: Item)
    ensures Ids(s + [x]) == Ids(s) + {x.id}
    ensures forall i :: i in s + [x] <==> i in s || i == x
  {
    assert forall i :: i in s ==> i in s + [x];
    assert x in s + [x];
    assert forall i :: i in s + [x] ==> i in s || i == x;
  }

  lemma PushKeepsOthers(b: Backend, q: string, p: Payload, r: string)
    ensures r != q ==> Queue(Push(b, q, p), r) == Queue(b, r)
    ensures Queue(Push(b, q, p), q) == Queue(b, q) + [Item(b.nextId, q, p, 0)]
    ensures Ids(Queue(b, r)) <= Ids(Queue(Push(b, q, p), r))
  {
    IdsAppend(Queue(b, q), Item(b.nextId, q, p, 0));
  }

  /** The next id belongs to nobody yet. */
  lemma FreshId(b: Backend, h: History, maxAttempts: int)
    requires Consistent(b, h, maxAttempts)
    ensures b.nextId !in h.origin && b.nextId !in h.originals && b.nextId !in b.rows
    ensures forall q, item :: item in Queue(b, q) ==> item.id in h.origin && item.id != b.nextId
    ensures forall k :: k in h.originals ==> h.originals[k].place.id != b.nextId
  {
    forall id | id in h.origin ensures id < b.nextId {
      assert Registered(b, h, id);
    }
    forall k | k in h.originals ensures k in h.origin && h.originals[k].place.id in h.origin {
      assert Traceable(h, k);
    }
    forall q, item | item in Queue(b, q) ensures item.id in h.origin {
      assert Seated(h, q, item);
    }
  }

  /** Pushing a message that now carries original `k`, which no queued message carried before. */
  lemma QueuesAfterPush(b: Backend, h: History, q: string, p: Payload, k: nat, o: Original)
    requires QueuesAgree(b, h)
    requires forall r, item :: item in Queue(b, r) ==>
               item.id in h.origin && item.id != b.nextId && h.origin[item.id] != k
    requires (o.place == Waiting(b.nextId) || o.place == Dead(b.nextId)) && q == HomeQueue(o)
    requires UserPart(p) == o.payload && ReadCount(p) == Some(o.deliveries)
    ensures QueuesAgree(Push(b, q, p), History(h.originals[k := o], h.origin[b.nextId := k]))
  {
    var b', h' := Push(b, q, p), History(h.originals[k := o], h.origin[b.nextId := k]);
    forall r, item | item in Queue(b', r) ensures Seated(h', r, item) {
      PushKeepsOthers(b, q, p, r);
      if item in Queue(b, r) {
        assert Seated(h, r, item);
      }
    }
    forall r ensures DistinctItems(Queue(b', r)) {
      PushKeepsOthers(b, q, p, r);
      assert DistinctItems(Queue(b, r));
      assert forall i :: 0 <= i < |Queue(b, r)| ==> Queue(b, r)[i] in Queue(b, r);
    }
  }

  /** The accounts of all other originals survive a push. */
  lemma OriginalsAfterPush(b: Backend, h: History, maxAttempts: int, q: string, p: Payload, k: nat, o: Original)
    requires OriginalsAgree(b, h, maxAttempts)
    requires b.nextId !in h.origin && b.nextId !in h.originals
    requires k == b.nextId || k in h.originals
    requires o.place.id == b.nextId && Accounted(Push(b, q, p), maxAttempts, o)
    ensures OriginalsAgree(Push(b, q, p), History(h.originals[k := o], h.origin[b.nextId := k]), maxAttempts)
  {
    var b', h' := Push(b, q, p), History(h.originals[k := o], h.origin[b.nextId := k]);
    forall j | j in h'.originals ensures Traceable(h', j) && Accounted(b', maxAttempts, h'.originals[j]) {
      if j in h.originals {
        assert Traceable(h, j);
      }
      if j != k {
        PushKeepsOthers(b, q, p, h.originals[j].queue);
        PushKeepsOthers(b, q, p, DeadLetters(h.originals[j].queue));
      }
    }
  }

  lemma EnqueueKeeps(b: Backend, h: History, maxAttempts: int, q: string, p: Payload)
    requires Consistent(b, h, maxAttempts) && maxAttempts >= 1
    requires !IsDeadLetterName(q) && UserPayload(p)
    ensures Consistent(Push(b, q, p), Enqueued(h, b.nextId, q, p), maxAttempts)
  {
    var n := b.nextId;
    var o := Original(q, p, Waiting(n), 0);
    FreshId(b, h, maxAttempts);
    forall r, item | item in Queue(b, r) ensures h.origin[item.id] != n {
      assert Seated(h, r, item);
    }
    NewPayload(p);
    QueuesAfterPush(b, h, q, p, n, o);
    IdsAppend(Queue(b, q), Item(n, q, p, 0));
    PushKeepsOthers(b, q, p, q);
    OriginalsAfterPush(b, h, maxAttempts, q, p, n, o);
    RowsAfterEnqueue(b, h, q, p);
  }

  lemma NewPayload(p: Payload)
    requires UserPayload(p)
    ensures UserPart(p) == p && ReadCount(p) == Some(0)
  {
    RetryKeyIsInternal();
    assert RETRY_KEY !in p;
    assert UserPart(p) == p;
  }

  lemma RowsAfterEnqueue(b: Backend, h: History, q: string, p: Payload)
    requires RowsAgree(b, h) && b.nextId !in h.origin && b.nextId !in h.originals
    ensures RowsAgree(Push(b, q, p), Enqueued(h, b.nextId, q, p))
  {
    var b', h' := Push(b, q, p), Enqueued(h, b.nextId, q, p);
    forall id | id in h'.origin ensures Registered(b', h', id) {
      if id != b.nextId {
        assert Registered(b, h, id);
      }
    }
  }

  // ---------------------------------------------------------------- delivery

  lemma PopEffect(b: Backend, q: string, r: string)
    requires Queue(b, q) != []
    ensures Queue(Pop(b, q), r) == if r == q then Queue(b, q)[1..] else Queue(b, r)
    ensures Pop(b, q).nextId == b.nextId && Pop(b, q).rows.Keys == b.rows.Keys
  {
  }

  /** Removing the head of one queue and changing only its own original. */
  lemma QueuesAfterPop(b: Backend, h: History, q: string, item: Item, o: Original)
    requires QueuesAgree(b, h) && Queue(b, q) != [] && item == Queue(b, q)[0] && Seated(h, q, item)
    ensures QueuesAgree(Pop(b, q), h.(originals := h.originals[h.origin[item.id] := o]))
  {
    var k := h.origin[item.id];
    var b', h' := Pop(b, q), h.(originals := h.originals[k := o]);
    forall r, x | x in Queue(b', r) ensures Seated(h', r, x) {
      PopEffect(b, q, r);
      assert x in Queue(b, r) && Seated(h, r, x);
      if h.origin[x.id] == k {
        HeadIsOnly(b, h, q, r, x);
      }
    }
    forall r ensures DistinctItems(Queue(b', r)) {
      PopEffect(b, q, r);
      assert DistinctItems(Queue(b, r));
    }
  }

  /** No other queued message carries the original of the head. */
  lemma HeadIsOnly(b: Backend, h: History, q: string, r: string, x: Item)
    requires QueuesAgree(b, h) && Queue(b, q) != [] && x in Queue(b, r)
    requires Seated(h, q, Queue(b, q)[0]) && Seated(h, r, x)
    requires h.origin[x.id] == h.origin[Queue(b, q)[0].id]
    ensures r == q && x == Queue(b, q)[0]
  {
    assert x.id == Queue(b, q)[0].id && r == q;
    assert DistinctItems(Queue(b, q));
    var i :| 0 <= i < |Queue(b, q)| && Queue(b, q)[i] == x;
  }

  /** Rows follow when one original changes and the row of its current message is marked accordingly. */
  lemma RowsAfterMark(b: Backend, h: History, id: nat, status: Status, delivered: nat, o: Original)
    requires RowsAgree(b, h) && id in h.origin && h.origin[id] in h.originals
    requires h.originals[h.origin[id]].place.id == id == o.place.id && status == StatusFor(o, id)
    ensures RowsAgree(Mark(b, id, status, delivered), h.(originals := h.originals[h.origin[id] := o]))
  {
    var b', h' := Mark(b, id, status, delivered), h.(originals := h.originals[h.origin[id] := o]);
    assert Registered(b, h, id);
    forall x | x in h'.origin ensures Registered(b', h', x) {
      assert Registered(b, h, x);
    }
  }

  /** The head of a work queue is the current message of an original that still has deliveries left. */
  lemma HeadOfWorkQueue(b: Backend, h: History, maxAttempts: int, q: string, item: Item)
    requires Consistent(b, h, maxAttempts) && Queue(b, q) != [] && !IsDeadLetterName(q) && item == Queue(b, q)[0]
    ensures Seated(h, q, item)
    ensures h.originals[h.origin[item.id]].place == Waiting(item.id)
    ensures Accounted(Pop(b, q), maxAttempts, Delivery(h.originals[h.origin[item.id]], item))
  {
    assert item in Queue(b, q) && Seated(h, q, item);
    var o := h.originals[h.origin[item.id]];
    DeadLetterNames(o.queue);
    assert Accounted(b, maxAttempts, o);
  }

  lemma DequeueKeeps(b: Backend, h: History, maxAttempts: int, q: string, item: Item)
    requires Consistent(b, h, maxAttempts) && Queue(b, q) != [] && !IsDeadLetterName(q) && item == Queue(b, q)[0]
    ensures item.id in h.origin && h.origin[item.id] in h.originals
    ensures Consistent(Pop(b, q), Delivered(h, item), maxAttempts)
  {
    HeadOfWorkQueue(b, h, maxAttempts, q, item);
    var o := Delivery(h.originals[h.origin[item.id]], item);
    QueuesAfterPop(b, h, q, item, o);
    PopRows(b, h, q, item, o);
    OriginalsAfterPop(b, h, maxAttempts, q, item, o);
  }

  lemma PopRows(b: Backend, h: History, q: string, item: Item, o: Original)
    requires RowsAgree(b, h) && Queue(b, q) != [] && item == Queue(b, q)[0]
    requires item.id in h.origin && h.origin[item.id] in h.originals
    requires h.originals[h.origin[item.id]].place.id == item.id == o.place.id && o.place.InFlight?
    ensures RowsAgree(Pop(b, q), h.(originals := h.originals[h.origin[item.id] := o]))
  {
    var shorter := b.(queues := b.queues[q := Queue(b, q)[1..]]);
    forall id | id in h.origin ensures Registered(shorter, h, id) {
      assert Registered(b, h, id);
    }
    RowsAfterMark(shorter, h, item.id, Processing, 1, o);
  }

  lemma OriginalsAfterPop(b: Backend, h: History, maxAttempts: int, q: string, item: Item, o: Original)
    requires OriginalsAgree(b, h, maxAttempts) && Queue(b, q) != [] && item == Queue(b, q)[0] && Seated(h, q, item)
    requires o.place.id == item.id && Accounted(Pop(b, q), maxAttempts, o)
    ensures OriginalsAgree(Pop(b, q), h.(originals := h.originals[h.origin[item.id] := o]), maxAttempts)
  {
    var k := h.origin[item.id];
    var b', h' := Pop(b, q), h.(originals := h.originals[k := o]);
    forall j | j in h'.originals ensures Traceable(h', j) && Accounted(b', maxAttempts, h'.originals[j]) {
      assert Traceable(h, j);
      if j != k {
        var id := h.originals[j].place.id;
        assert id != item.id;
        StillQueued(b, q, h.originals[j].queue, id);
        StillQueued(b, q, DeadLetters(h.originals[j].queue), id);
      }
    }
  }

  lemma StillQueued(b: Backend, q: string, r: string, id: nat)
    requires Queue(b, q) != [] && id != Queue(b, q)[0].id
    ensures id in Ids(Queue(b, r)) ==> id in Ids(Queue(Pop(b, q), r))
  {
    PopEffect(b, q, r);
    if r == q && id in Ids(Queue(b, q)) {
      var x :| x in Queue(b, q) && x.id == id;
      var i :| 0 <= i < |Queue(b, q)| && Queue(b, q)[i] == x;
      assert Queue(b, q)[1..][i - 1] == x;
    }
  }

  // ---------------------------------------------------------------- acknowledgement

  lemma InFlightIsQueuedNowhere(b: Backend, h: History, k: nat)
    requires QueuesAgree(b, h) && k in h.originals && (h.originals[k].place.InFlight? || h.originals[k].place.Done?)
    ensures forall q, item :: item in Queue(b, q) ==> item.id in h.origin && h.origin[item.id] != k
  {
    forall q, item | item in Queue(b, q) ensures item.id in h.origin && h.origin[item.id] != k {
      assert Seated(h, q, item);
    }
  }

  /** Changing the place of an original that no queued message carries disturbs no queue. */
  lemma QueuesUnmoved(b: Backend, m: Backend, h: History, k: nat, o: Original)
    requires QueuesAgree(b, h) && m.queues == b.queues
    requires forall q, item :: item in Queue(b, q) ==> item.id in h.origin && h.origin[item.id] != k
    ensures QueuesAgree(m, h.(originals := h.originals[k := o]))
  {
    var h' := h.(originals := h.originals[k := o]);
    forall q, item | item in Queue(m, q) ensures Seated(h', q, item) {
      assert item in Queue(b, q) && Seated(h, q, item);
    }
    forall q ensures DistinctItems(Queue(m, q)) {
      assert DistinctItems(Queue(b, q));
    }
  }

  lemma OriginalsUnmoved(b: Backend, m: Backend, h: History, maxAttempts: int, k: nat, o: Original)
    requires OriginalsAgree(b, h, maxAttempts) && m.queues == b.queues && k in h.originals
    requires o.place.id == h.originals[k].place.id && Accounted(m, maxAttempts, o)
    ensures OriginalsAgree(m, h.(originals := h.originals[k := o]), maxAttempts)
  {
    var h' := h.(originals := h.originals[k := o]);
    forall j | j in h'.originals ensures Traceable(h', j) && Accounted(m, maxAttempts, h'.originals[j]) {
      assert Traceable(h, j) && Accounted(b, maxAttempts, h.originals[j]);
    }
  }

  lemma SuccessKeeps(b: Backend, h: History, maxAttempts: int, id: nat)
    requires Consistent(b, h, maxAttempts) && Delivering(h, id)
    ensures Consistent(Mark(b, id, Acknowledged, 0), Succeeded(h, id), maxAttempts)
  {
    var k := h.origin[id];
    var o := h.originals[k].(place := Done(id));
    var m := Mark(b, id, Acknowledged, 0);
    RowsAfterMark(b, h, id, Acknowledged, 0, o);
    InFlightIsQueuedNowhere(b, h, k);
    QueuesUnmoved(b, m, h, k, o);
    RetryCountSign(b, h, maxAttempts, k);
    OriginalsUnmoved(b, m, h, maxAttempts, k, o);
  }

  /** A delivery in flight counts at least once. */
  lemma RetryCountSign(b: Backend, h: History, maxAttempts: int, k: nat)
    requires OriginalsAgree(b, h, maxAttempts) && k in h.originals && h.originals[k].place.InFlight?
    ensures Accounted(b, maxAttempts, h.originals[k]) && 1 <= h.originals[k].deliveries <= maxAttempts
  {
    assert Accounted(b, maxAttempts, h.originals[k]);
  }

  /** Marking a row moves no message. */
  lemma MarkMovesNothing(b: Backend, h: History, maxAttempts: int, id: nat)
    requires QueuesAgree(b, h) && OriginalsAgree(b, h, maxAttempts)
    ensures
      var m := Mark(b, id, FailedAttempt, 0);
      && m.queues == b.queues && m.nextId == b.nextId
      && (forall q :: Queue(m, q) == Queue(b, q))
      && QueuesAgree(m, h) && OriginalsAgree(m, h, maxAttempts)
  {
    var m := Mark(b, id, FailedAttempt, 0);
    forall q ensures Queue(m, q) == Queue(b, q) {
    }
    forall j | j in h.originals ensures Traceable(h, j) && Accounted(m, maxAttempts, h.originals[j]) {
      assert Accounted(b, maxAttempts, h.originals[j]);
    }
  }

  /** The original of a failed delivery, with its message back in a queue. */
  lemma FailureAccount(m: Backend, h: History, maxAttempts: int, item: Item, k: nat, o: Original)
    requires OriginalsAgree(m, h, maxAttempts) && item.id in h.origin && h.origin[item.id] == k && k in h.originals
    requires h.originals[k].place == InFlight(item.id, item)
    requires o == Failed(h, item, m.nextId, maxAttempts).originals[k]
    ensures
      var q, p := FailureQueue(item, maxAttempts), RetryPayload(item);
      && o.place.id == m.nextId && (o.place.Waiting? || o.place.Dead?) && q == HomeQueue(o)
      && UserPart(p) == o.payload && ReadCount(p) == Some(o.deliveries)
      && Accounted(Push(m, q, p), maxAttempts, o)
  {
    var q, p := FailureQueue(item, maxAttempts), RetryPayload(item);
    RetryCarriesPayload(item);
    RetryCountSign(m, h, maxAttempts, k);
    PushKeepsOthers(m, q, p, q);
    IdsAppend(Queue(m, q), Item(m.nextId, q, p, 0));
  }

  lemma FailureKeeps(b: Backend, h: History, maxAttempts: int, item: Item)
    requires Consistent(b, h, maxAttempts) && OutWith(h, item)
    ensures Consistent(Fail(b, item, maxAttempts), Failed(h, item, b.nextId, maxAttempts), maxAttempts)
  {
    var k := h.origin[item.id];
    var q, p := FailureQueue(item, maxAttempts), RetryPayload(item);
    var m := Mark(b, item.id, FailedAttempt, 0);
    var o := Failed(h, item, b.nextId, maxAttempts).originals[k];
    FreshId(b, h, maxAttempts);
    InFlightIsQueuedNowhere(b, h, k);
    MarkMovesNothing(b, h, maxAttempts, item.id);
    FailureAccount(m, h, maxAttempts, item, k, o);
    QueuesAfterPush(m, h, q, p, k, o);
    OriginalsAfterPush(m, h, maxAttempts, q, p, k, o);
    RowsAfterFailure(b, h, item, q, p, o);
  }

  lemma RetryCarriesPayload(item: Item)
    ensures UserPart(RetryPayload(item)) == UserPart(item.payload)
    ensures ReadCount(RetryPayload(item)) == Some(RetryCount(item.payload) + 1)
  {
    RetryKeyIsInternal();
    assert UserPart(RetryPayload(item)) == UserPart(item.payload);
  }

  lemma RowsAfterFailure(b: Backend, h: History, item: Item, q: string, p: Payload, o: Original)
    requires RowsAgree(b, h) && item.id in h.origin && h.origin[item.id] in h.originals && b.nextId !in h.origin
    requires h.originals[h.origin[item.id]].place.id == item.id && o.place.id == b.nextId
    requires o.place.Waiting? || o.place.Dead?
    ensures RowsAgree(Push(Mark(b, item.id, FailedAttempt, 0), q, p),
                      History(h.originals[h.origin[item.id] := o], h.origin[b.nextId := h.origin[item.id]]))
  {
    var k := h.origin[item.id];
    var b' := Push(Mark(b, item.id, FailedAttempt, 0), q, p);
    var h' := History(h.originals[k := o], h.origin[b.nextId := k]);
    assert Registered(b, h, item.id);
    forall id | id in h'.origin ensures Registered(b', h', id) {
      if id != b.nextId {
        assert Registered(b, h, id);
      }
    }
  }

  // ---------------------------------------------------------------- conservation

  function Carried(h: History, s: seq<Item>): seq<nat>
    requires forall item :: item in s ==> item.id in h.origin
  {
    seq(|s|, i requires 0 <= i < |s| => h.origin[s[i].id])
  }

  datatype Kind = InQueue | OutForDelivery | Finished | DeadLettered

  function KindOf(p: Place): Kind {
    match p
    case Waiting(_) => InQueue
    case InFlight(_, _) => OutForDelivery
    case Done(_) => Finished
    case Dead(_) => DeadLettered
  }

  ghost function At(h: History, q: string, kind: Kind): set<nat> {
    set k | k in h.originals && h.originals[k].queue == q && KindOf(h.originals[k].place) == kind
  }

  ghost function Originals(h: History, q: string): set<nat> {
    set k | k in h.originals && h.originals[k].queue == q
  }

  /** Where messages of this kind sit. */
  function Seat(q: string, kind: Kind): string {
    if kind == DeadLettered then DeadLetters(q) else q
  }

  lemma CarriedAreThere(b: Backend, h: History, maxAttempts: int, q: string, kind: Kind, item: Item)
    requires Consistent(b, h, maxAttempts) && !IsDeadLetterName(q) && (kind == InQueue || kind == DeadLettered)
    requires item in Queue(b, Seat(q, kind))
    ensures item.id in h.origin && h.origin[item.id] in At(h, q, kind)
  {
    assert Seated(h, Seat(q, kind), item);
    assert Accounted(b, maxAttempts, h.originals[h.origin[item.id]]);
    NamesDecide(h, q, kind, item);
  }

  lemma ThoseThereAreCarried(b: Backend, h: History, maxAttempts: int, q: string, kind: Kind, k: nat)
    returns (item: Item)
    requires Consistent(b, h, maxAttempts) && (kind == InQueue || kind == DeadLettered) && k in At(h, q, kind)
    ensures item in Queue(b, Seat(q, kind)) && item.id in h.origin && h.origin[item.id] == k
  {
    assert Traceable(h, k) && Accounted(b, maxAttempts, h.originals[k]);
    item :| item in Queue(b, Seat(q, kind)) && item.id == h.originals[k].place.id;
  }

  /** The messages of a queue stand for exactly the originals that wait there, one each. */
  lemma QueueLength(b: Backend, h: History, maxAttempts: int, q: string, kind: Kind)
    requires Consistent(b, h, maxAttempts) && !IsDeadLetterName(q) && (kind == InQueue || kind == DeadLettered)
    ensures |Queue(b, Seat(q, kind))| == |At(h, q, kind)|
  {
    var s := Queue(b, Seat(q, kind));
    forall item | item in s ensures item.id in h.origin && h.origin[item.id] in At(h, q, kind) {
      CarriedAreThere(b, h, maxAttempts, q, kind, item);
    }
    forall k | k in At(h, q, kind) ensures exists item :: item in s && h.origin[item.id] == k {
      var item := ThoseThereAreCarried(b, h, maxAttempts, q, kind, k);
    }
    CarriedDistinct(b, h, Seat(q, kind));
    CarriedCount(h, s, At(h, q, kind));
  }

  lemma CarriedCount(h: History, s: seq<Item>, there: set<nat>)
    requires forall item :: item in s ==> item.id in h.origin && h.origin[item.id] in there
    requires forall k :: k in there ==> exists item :: item in s && h.origin[item.id] == k
    requires Distinct(Carried(h, s))
    ensures |s| == |there|
  {
    var c := Carried(h, s);
    forall k | k in there ensures k in c {
      var item :| item in s && h.origin[item.id] == k;
      var i :| 0 <= i < |s| && s[i] == item;
      assert c[i] == k;
    }
    forall k | k in c ensures k in there {
      var i :| 0 <= i < |c| && c[i] == k;
      assert s[i] in s;
    }
    assert Elements(c) == there;
    DistinctCardinality(c);
  }

  /** Work queues and dead-letter queues have different names, so the name tells the place. */
  lemma NamesDecide(h: History, q: string, kind: Kind, item: Item)
    requires !IsDeadLetterName(q) && (kind == InQueue || kind == DeadLettered) && Seated(h, Seat(q, kind), item)
    requires !IsDeadLetterName(h.originals[h.origin[item.id]].queue)
    ensures
      var o := h.originals[h.origin[item.id]];
      o.queue == q && KindOf(o.place) == kind
  {
    var o := h.originals[h.origin[item.id]];
    DeadLetterNames(q);
    DeadLetterNames(o.queue);
    assert DeadLetters(o.queue)[..|o.queue|] == o.queue && DeadLetters(q)[..|q|] == q;
  }

  lemma CarriedDistinct(b: Backend, h: History, q: string)
    requires QueuesAgree(b, h)
    requires forall item :: item in Queue(b, q) ==> item.id in h.origin
    ensures Distinct(Carried(h, Queue(b, q)))
  {
    var s := Queue(b, q);
    assert DistinctItems(s);
    forall i, j | 0 <= i < j < |s| ensures h.origin[s[i].id] != h.origin[s[j].id] {
      assert s[i] in s && s[j] in s;
      assert Seated(h, q, s[i]) && Seated(h, q, s[j]);
    }
  }

  /** Nothing is lost and nothing is duplicated: the originals of a work queue are the waiting, the
      delivered but unacknowledged, the acknowledged and the dead-lettered ones, and the first and
      the last are exactly the messages in the two backend queues. */
  lemma Conservation(b: Backend, h: History, maxAttempts: int, q: string)
    requires Consistent(b, h, maxAttempts) && !IsDeadLetterName(q)
    ensures |Originals(h, q)|
         == |Queue(b, q)| + |At(h, q, OutForDelivery)| + |At(h, q, Finished)| + |Queue(b, DeadLetters(q))|
  {
    QueueLength(b, h, maxAttempts, q, InQueue);
    QueueLength(b, h, maxAttempts, q, DeadLettered);
    FourKinds(h, q);
  }

  lemma FourKinds(h: History, q: string)
    ensures |Originals(h, q)|
         == |At(h, q, InQueue)| + |At(h, q, OutForDelivery)| + |At(h, q, Finished)| + |At(h, q, DeadLettered)|
  {
    var waiting, dead := At(h, q, InQueue), At(h, q, DeadLettered);
    var flying, done := At(h, q, OutForDelivery), At(h, q, Finished);
    EveryOriginalIsSomewhere(h, q);
    SplitCount(Originals(h, q), waiting + flying, done + dead);
    SplitCount(waiting + flying, waiting, flying);
    SplitCount(done + dead, done, dead);
  }

  lemma EveryOriginalIsSomewhere(h: History, q: string)
    ensures Originals(h, q)
         == (At(h, q, InQueue) + At(h, q, OutForDelivery)) + (At(h, q, Finished) + At(h, q, DeadLettered))
  {
    var four := (At(h, q, InQueue) + At(h, q, OutForDelivery)) + (At(h, q, Finished) + At(h, q, DeadLettered));
    forall k ensures k in Originals(h, q) <==> k in four {
    }
  }

  lemma SplitCount(whole: set<nat>, left: set<nat>, right: set<nat>)
    requires whole == left + right && left !! right
    ensures |whole| == |left| + |right|
  {
  }

  /** No original is delivered more than `maxAttempts` times; a dead letter carries the user payload
      unchanged and the full count. */
  lemma DeliveriesAreBounded(b: Backend, h: History, maxAttempts: int, k: nat)
    requires Consistent(b, h, maxAttempts) && k in h.originals
    ensures h.originals[k].deliveries <= maxAttempts
    ensures h.originals[k].place.Dead? ==>
      exists item ::
        && item in Queue(b, DeadLetters(h.originals[k].queue)) && item.id == h.originals[k].place.id
        && UserPart(item.payload) == h.originals[k].payload && ReadCount(item.payload) == Some(maxAttempts)
  {
    assert Accounted(b, maxAttempts, h.originals[k]);
    if h.originals[k].place.Dead? {
      var q := DeadLetters(h.originals[k].queue);
      var item :| item in Queue(b, q) && item.id == h.originals[k].place.id;
      assert Seated(h, q, item);
      assert Traceable(h, k);
    }
  }

  /** An original sits in at most one place of at most one queue. */
  lemma QueuedOnce(b: Backend, h: History, maxAttempts: int, q: string, i: nat, r: string, j: nat)
    requires Consistent(b, h, maxAttempts) && i < |Queue(b, q)| && j < |Queue(b, r)|
    requires Queue(b, q)[i].id in h.origin && Queue(b, r)[j].id in h.origin
    requires h.origin[Queue(b, q)[i].id] == h.origin[Queue(b, r)[j].id]
    ensures q == r && i == j
  {
    var x, y := Queue(b, q)[i], Queue(b, r)[j];
    assert x in Queue(b, q) && y in Queue(b, r);
    assert Seated(h, q, x) && Seated(h, r, y);
    assert q == r && x.id == y.id;
    assert DistinctItems(Queue(b, q));
  }

  // ---------------------------------------------------------------- whole runs

  datatype Action =
    | Enqueuing(queue: string, payload: Payload)
    | Dequeuing(queue: string)
    | Succeeding(id: nat)
    | Failing(item: Item)

  datatype System = System(backend: Backend, history: History)

  const EMPTY := System(Backend(map[], map[], 0), History(map[], map[]))

  /** Each delivery is acknowledged once, and nobody consumes or feeds a dead-letter queue. */
  ghost predicate Allowed(s: System, a: Action) {
    match a
    case Enqueuing(q, p) => !IsDeadLetterName(q) && UserPayload(p)
    case Dequeuing(q) => !IsDeadLetterName(q)
    case Succeeding(id) => Delivering(s.history, id)
    case Failing(item) => OutWith(s.history, item)
  }

  /** The original whose message this action hands out, if it hands one out. */
  ghost function HandsOut(s: System, a: Action): Option<nat> {
    if a.Dequeuing? && Queue(s.backend, a.queue) != [] && Known(s.history, Queue(s.backend, a.queue)[0].id)
    then Some(s.history.origin[Queue(s.backend, a.queue)[0].id])
    else None
  }

  ghost function Step(s: System, a: Action, maxAttempts: int): System
    requires Allowed(s, a)
  {
    match a
    case Enqueuing(q, p) => System(Push(s.backend, q, p), Enqueued(s.history, s.backend.nextId, q, p))
    case Dequeuing(q) =>
      if HandsOut(s, a).None? then s
      else System(Pop(s.backend, q), Delivered(s.history, Queue(s.backend, q)[0]))
    case Succeeding(id) => System(Mark(s.backend, id, Acknowledged, 0), Succeeded(s.history, id))
    case Failing(item) =>
      System(Fail(s.backend, item, maxAttempts), Failed(s.history, item, s.backend.nextId, maxAttempts))
  }

  ghost predicate IsRun(states: seq<System>, actions: seq<Action>, maxAttempts: int) {
    && |states| == |actions| + 1 && states[0] == EMPTY
    && forall i :: 0 <= i < |actions| ==>
         Allowed(states[i], actions[i]) && states[i + 1] == Step(states[i], actions[i], maxAttempts)
  }

  lemma StepKeeps(s: System, a: Action, maxAttempts: int)
    requires maxAttempts >= 1 && Consistent(s.backend, s.history, maxAttempts) && Allowed(s, a)
    ensures Consistent(Step(s, a, maxAttempts).backend, Step(s, a, maxAttempts).history, maxAttempts)
  {
    match a
    case Enqueuing(q, p) => EnqueueKeeps(s.backend, s.history, maxAttempts, q, p);
    case Dequeuing(q) =>
      if HandsOut(s, a).Some? {
        DequeueKeeps(s.backend, s.history, maxAttempts, q, Queue(s.backend, q)[0]);
      }
    case Succeeding(id) => SuccessKeeps(s.backend, s.history, maxAttempts, id);
    case Failing(item) => FailureKeeps(s.backend, s.history, maxAttempts, item);
  }

  lemma {:induction false} RunsAreConsistent(states: seq<System>, actions: seq<Action>, maxAttempts: int, n: nat)
    requires IsRun(states, actions, maxAttempts) && maxAttempts >= 1 && n <= |actions|
    ensures Consistent(states[n].backend, states[n].history, maxAttempts)
  {
    if n > 0 {
      RunsAreConsistent(states, actions, maxAttempts, n - 1);
      StepKeeps(states[n - 1], actions[n - 1], maxAttempts);
    }
  }

  lemma NextIdIsNew(states: seq<System>, actions: seq<Action>, maxAttempts: int, n: nat)
    requires IsRun(states, actions, maxAttempts) && maxAttempts >= 1 && n <= |actions|
    ensures states[n].backend.nextId !in states[n].history.originals
  {
    RunsAreConsistent(states, actions, maxAttempts, n);
    FreshId(states[n].backend, states[n].history, maxAttempts);
  }

  /** How often messages of original `k` were handed out in the first `n` actions. */
  ghost function TimesDelivered(states: seq<System>, actions: seq<Action>, n: nat, k: nat): nat
    requires n <= |actions| < |states|
  {
    if n == 0 then 0
    else TimesDelivered(states, actions, n - 1, k) + if HandsOut(states[n - 1], actions[n - 1]) == Some(k) then 1 else 0
  }

  ghost function Recorded(h: History, k: nat): nat {
    if k in h.originals then h.originals[k].deliveries else 0
  }

  lemma RecordStep(s: System, a: Action, maxAttempts: int, k: nat)
    requires Allowed(s, a) && s.backend.nextId !in s.history.originals
    ensures Recorded(Step(s, a, maxAttempts).history, k)
         == Recorded(s.history, k) + if HandsOut(s, a) == Some(k) then 1 else 0
  {
  }

  lemma {:induction false} RecordsCountDeliveries(
    states: seq<System>, actions: seq<Action>, maxAttempts: int, n: nat, k: nat)
    requires IsRun(states, actions, maxAttempts) && maxAttempts >= 1 && n <= |actions|
    ensures TimesDelivered(states, actions, n, k) == Recorded(states[n].history, k)
  {
    if n > 0 {
      RecordsCountDeliveries(states, actions, maxAttempts, n - 1, k);
      NextIdIsNew(states, actions, maxAttempts, n - 1);
      RecordStep(states[n - 1], actions[n - 1], maxAttempts, k);
    }
  }

  lemma OriginalStep(s: System, a: Action, maxAttempts: int, k: nat)
    requires Allowed(s, a) && s.backend.nextId !in s.history.originals && k in s.history.originals
    ensures
      var h := Step(s, a, maxAttempts).history;
      && k in h.originals && h.originals[k].payload == s.history.originals[k].payload
      && h.originals[k].queue == s.history.originals[k].queue
  {
  }

  /** An original keeps its queue and payload from the call that enqueued it on. */
  lemma {:induction false} OriginalsAreFixed(
    states: seq<System>, actions: seq<Action>, maxAttempts: int, i: nat, n: nat, k: nat)
    requires IsRun(states, actions, maxAttempts) && maxAttempts >= 1 && i <= n <= |actions|
    requires k in states[i].history.originals
    ensures k in states[n].history.originals
    ensures states[n].history.originals[k].payload == states[i].history.originals[k].payload
    ensures states[n].history.originals[k].queue == states[i].history.originals[k].queue
  {
    if i < n {
      OriginalsAreFixed(states, actions, maxAttempts, i, n - 1, k);
      NextIdIsNew(states, actions, maxAttempts, n - 1);
      OriginalStep(states[n - 1], actions[n - 1], maxAttempts, k);
    }
  }

  /** Over every run: the originals of each work queue are all accounted for, and none is handed out
      more than `maxAttempts` times. */
  lemma EveryRunConserves(states: seq<System>, actions: seq<Action>, maxAttempts: int, n: nat, q: string, k: nat)
    requires IsRun(states, actions, maxAttempts) && maxAttempts >= 1 && n <= |actions| && !IsDeadLetterName(q)
    ensures
      var b, h := states[n].backend, states[n].history;
      |Originals(h, q)|
      == |Queue(b, q)| + |At(h, q, OutForDelivery)| + |At(h, q, Finished)| + |Queue(b, DeadLetters(q))|
    ensures TimesDelivered(states, actions, n, k) <= maxAttempts
  {
    var b, h := states[n].backend, states[n].history;
    RunsAreConsistent(states, actions, maxAttempts, n);
    Conservation(b, h, maxAttempts, q);
    RecordsCountDeliveries(states, actions, maxAttempts, n, k);
    if k in h.originals {
      DeliveriesAreBounded(b, h, maxAttempts, k);
    }
  }

  /** In every run a dequeue from a non-empty work queue hands out some original enqueued there, and
      the consumer sees the payload that was enqueued, whatever retries came between. */
  lemma EveryDeliveryCarriesThePayload(
    states: seq<System>, actions: seq<Action>, maxAttempts: int, i: nat, n: nat, k: nat)
    requires IsRun(states, actions, maxAttempts) && maxAttempts >= 1 && i <= n < |actions|
    requires actions[n].Dequeuing? && Queue(states[n].backend, actions[n].queue) != []
    ensures HandsOut(states[n], actions[n]).Some?
    ensures HandsOut(states[n], actions[n]) == Some(k) && k in states[i].history.originals ==>
      var first := states[i].history.originals[k];
      && first.queue == actions[n].queue
      && UserPart(Queue(states[n].backend, actions[n].queue)[0].payload) == first.payload
  {
    var s, q := states[n], actions[n].queue;
    RunsAreConsistent(states, actions, maxAttempts, n);
    HeadOfWorkQueue(s.backend, s.history, maxAttempts, q, Queue(s.backend, q)[0]);
    if HandsOut(s, actions[n]) == Some(k) && k in states[i].history.originals {
      OriginalsAreFixed(states, actions, maxAttempts, i, n, k);
    }
  }

  // ---------------------------------------------------------------- the service

  class QueueService {
    const maxAttempts: int
    var queues: map<string, seq<Item>>
    var rows: map<nat, Row>
    var nextId: nat
    ghost var history: History

    constructor (maxAttempts: int)
      ensures this.maxAttempts == maxAttempts && (Valid() <==> maxAttempts >= 1)
      ensures State() == Backend(map[], map[], 0) && history == History(map[], map[])
    {
      this.maxAttempts := maxAttempts;
      queues, rows, nextId, history := map[], map[], 0, History(map[], map[]);
    }

    function State(): Backend
      reads this
    {
      Backend(queues, rows, nextId)
    }

    ghost predicate Valid()
      reads this
    {
      maxAttempts >= 1 && Consistent(State(), history, maxAttempts)
    }

    /** `backend.enqueue` followed by `record_enqueue`. */
    method PushMessage(queue: string, payload: Payload) returns (item: Item)
      modifies this`queues, this`rows, this`nextId
      ensures State() == Push(old(State()), queue, payload)
      ensures item == Item(old(nextId), queue, payload, 0)
    {
      item := Item(nextId, queue, payload, 0);
      var waiting := if queue in queues then queues[queue] else [];
      queues := queues[queue := waiting + [item]];
      rows := rows[item.id := Row(queue, payload, Queued, 0)];
      nextId := nextId + 1;
    }

    method SetStatus(id: nat, status: Status, delivered: nat)
      modifies this`rows
      ensures State() == Mark(old(State()), id, status, delivered)
    {
      if id in rows {
        rows := rows[id := rows[id].(status := status, attempts := rows[id].attempts + delivered)];
      }
    }

    /** The two branches of a negative acknowledgement. */
    method Requeue(item: Item) returns (retried: bool)
      modifies this`queues, this`rows, this`nextId
      ensures State() == Fail(old(State()), item, maxAttempts)
      ensures retried <==> RetryCount(item.payload) + 1 < maxAttempts
    {
      SetStatus(item.id, FailedAttempt, 0);
      var attempts := RetryCount(item.payload) + 1;
      var payload := item.payload[RETRY_KEY := Number(attempts)];
      retried := attempts < maxAttempts;
      if retried {
        var _ := PushMessage(item.queue, payload);
      } else {
        var _ := PushMessage(DeadLetters(item.queue), payload);
      }
    }

    /** On a work queue and with a user payload, a new original: nobody else's place changes. */
    method Enqueue(queue: string, payload: Payload) returns (item: Item)
      modifies this
      ensures State() == Push(old(State()), queue, payload) && item == Item(old(nextId), queue, payload, 0)
      ensures old(Valid()) && !IsDeadLetterName(queue) && UserPayload(payload) ==>
        Valid() && history == Enqueued(old(history), item.id, queue, payload)
    {
      if Valid() && !IsDeadLetterName(queue) && UserPayload(payload) {
        EnqueueKeeps(State(), history, maxAttempts, queue, payload);
        history := Enqueued(history, nextId, queue, payload);
      }
      item := PushMessage(queue, payload);
    }

    /** Takes the oldest message, if any; the delivered copy carries the same payload. */
    method Dequeue(queue: string) returns (r: Option<Item>)
      modifies this
      ensures r.None? <==> Queue(old(State()), queue) == []
      ensures r.None? ==> rows == old(rows) && nextId == old(nextId) && history == old(history)
                          && (forall q :: Queue(State(), q) == Queue(old(State()), q)) && (old(Valid()) ==> Valid())
      ensures r.Some? ==>
        var head := Queue(old(State()), queue)[0];
        && r.value.id == head.id && r.value.queue == head.queue && r.value.payload == head.payload
        && r.value.attempts == head.attempts + 1
      ensures r.Some? ==>
        && r.value == Copy(Queue(old(State()), queue)[0])
        && State() == Pop(old(State()), queue)
      ensures old(Valid()) && r.Some? && !IsDeadLetterName(queue) ==>
        var item := Queue(old(State()), queue)[0];
        && Valid() && Known(old(history), item.id)
        && history == Delivered(old(history), item)
    {
      var waiting := if queue in queues then queues[queue] else [];
      if waiting == [] {
        queues := queues[queue := waiting];
        EmptyQueueIsNothing(old(State()), State(), history, maxAttempts, queue);
        return None;
      }
      var item := waiting[0];
      ghost var popped, after := Pop(State(), queue), history;
      if Valid() && !IsDeadLetterName(queue) {
        DequeueKeeps(State(), history, maxAttempts, queue, item);
        after := Delivered(history, item);
      }
      queues := queues[queue := waiting[1..]];
      SetStatus(item.id, Processing, 1);
      history := after;
      assert State() == popped;
      r := Some(Copy(item));
    }

    /** Marks the row; the delivery in flight under this id is done for good. */
    method AckSuccess(id: nat)
      modifies this
      ensures State() == Mark(old(State()), id, Acknowledged, 0)
      ensures old(Valid() && Delivering(history, id)) ==> Valid() && history == Succeeded(old(history), id)
    {
      history := AfterSuccess(State(), history, maxAttempts, id);
      SetStatus(id, Acknowledged, 0);
    }

    /** The same user payload goes back to the queue, or to the dead letters after the last attempt.  A retry
        count that cannot be read raises, after the row has been marked. */
    method AckFailure(item: Item) returns (r: Option<bool>)
      modifies this
      ensures ReadCount(item.payload).None? ==> r == None && State() == Mark(old(State()), item.id, FailedAttempt, 0)
      ensures ReadCount(item.payload).Some? ==>
        r == Some(RetryCount(item.payload) + 1 < maxAttempts) && State() == Fail(old(State()), item, maxAttempts)
      ensures old(Valid() && OutWith(history, item)) ==>
        r.Some? && Valid() && history == Failed(old(history), item, old(nextId), maxAttempts)
    {
      if ReadCount(item.payload).None? {
        if Valid() && OutWith(history, item) {
          RetryCountSign(State(), history, maxAttempts, history.origin[item.id]);
          assert false;
        }
        SetStatus(item.id, FailedAttempt, 0);
        return None;
      }
      ghost var failed, after := Fail(State(), item, maxAttempts), history;
      if Valid() && OutWith(history, item) {
        FailureKeeps(State(), history, maxAttempts, item);
        after := Failed(history, item, nextId, maxAttempts);
      }
      var retried := Requeue(item);
      history := after;
      assert State() == failed;
      return Some(retried);
    }
  }

  /** What is known of the originals after a positive acknowledgement. */
  ghost function AfterSuccess(b: Backend, h: History, maxAttempts: int, id: nat): (after: History)
    ensures Delivering(h, id) ==> after == Succeeded(h, id)
    ensures Consistent(b, h, maxAttempts) && Delivering(h, id) ==>
        Consistent(Mark(b, id, Acknowledged, 0), after, maxAttempts)
  {
    if Delivering(h, id) then
      if Consistent(b, h, maxAttempts) then SuccessKeeps(b, h, maxAttempts, id); Succeeded(h, id) else Succeeded(h, id)
    else
      h
  }

  /** An acknowledgement balances the books exactly when its delivery is in flight: otherwise the messages
      and the originals of the queue differ by one. */
  lemma FailureBalancesIff(b: Backend, h: History, maxAttempts: int, item: Item)
    requires Consistent(b, h, maxAttempts) && !IsDeadLetterName(item.queue)
    ensures
      var q, after := item.queue, Fail(b, item, maxAttempts);
      var known := if OutWith(h, item) then Failed(h, item, b.nextId, maxAttempts) else h;
      |Queue(after, q)| + |At(known, q, OutForDelivery)| + |At(known, q, Finished)| + |Queue(after, DeadLetters(q))|
      == |Originals(known, q)| + if OutWith(h, item) then 0 else 1
  {
    var q, after := item.queue, Fail(b, item, maxAttempts);
    if OutWith(h, item) {
      FailureKeeps(b, h, maxAttempts, item);
      Conservation(after, Failed(h, item, b.nextId, maxAttempts), maxAttempts, q);
    } else {
      Conservation(b, h, maxAttempts, q);
      OneMoreMessage(b, item, maxAttempts);
    }
  }

  lemma OneMoreMessage(b: Backend, item: Item, maxAttempts: int)
    ensures
      var q, after := item.queue, Fail(b, item, maxAttempts);
      |Queue(after, q)| + |Queue(after, DeadLetters(q))| == |Queue(b, q)| + |Queue(b, DeadLetters(q))| + 1
  {
    assert |DeadLetters(item.queue)| > |item.queue|;
  }

  /** Acknowledging one delivery as failed twice puts its payload into the queue twice. */
  lemma FailingTwiceDuplicates(b: Backend, item: Item, maxAttempts: int)
    ensures
      var q := FailureQueue(item, maxAttempts);
      var twice := Queue(Fail(Fail(b, item, maxAttempts), item, maxAttempts), q);
      && |twice| == |Queue(b, q)| + 2
      && UserPart(twice[|twice| - 2].payload) == UserPart(twice[|twice| - 1].payload) == UserPart(item.payload)
  {
    RetryCarriesPayload(item);
  }

  /** `setdefault` on an absent queue changes no queue. */
  lemma EmptyQueueIsNothing(b: Backend, m: Backend, h: History, maxAttempts: int, q: string)
    requires Queue(b, q) == [] && m == b.(queues := b.queues[q := []])
    ensures forall r :: Queue(m, r) == Queue(b, r)
    ensures Consistent(b, h, maxAttempts) ==> Consistent(m, h, maxAttempts)
  {
    assert forall r :: Queue(m, r) == Queue(b, r);
    if Consistent(b, h, maxAttempts) {
      SameQueuesConsistent(b, m, h, maxAttempts);
    }
  }

  lemma SameQueuesConsistent(b: Backend, m: Backend, h: History, maxAttempts: int)
    requires Consistent(b, h, maxAttempts) && m.rows == b.rows && m.nextId == b.nextId
    requires forall r :: Queue(m, r) == Queue(b, r)
    ensures Consistent(m, h, maxAttempts)
  {
    forall id | id in h.origin ensures Registered(m, h, id) {
      assert Registered(b, h, id);
    }
    forall k | k in h.originals ensures Traceable(h, k) && Accounted(m, maxAttempts, h.originals[k]) {
      assert Accounted(b, maxAttempts, h.originals[k]);
    }
    forall r, item | item in Queue(m, r) ensures Seated(h, r, item) {
      assert item in Queue(b, r);
    }
  }
}
