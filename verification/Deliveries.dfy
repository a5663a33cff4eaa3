/** Responding to a delivery, against a broker any of whose operations may fail, before or
    after taking effect: a message is never lost, answered at most once, and counts its attempts. */
module Deliveries {
  import opened Options

  const ATTEMPT := "x-zote-attempt"
  const JSON := "application/json"
  const IDENTITY := "identity"
  const COMPRESS := "compress"

  /** A header value, with what it converts to as an integer, if it does. */
  datatype HeaderValue = HeaderValue(data: int, asInt: int, converts: bool)

  type Headers = map<string, HeaderValue>

  function IntHeader(n: int): HeaderValue {
    HeaderValue(n, n, true)
  }

  /** The attempt a message is on: the first unless its header says otherwise. */
  function Attempt(headers: Headers): int {
    if ATTEMPT in headers && headers[ATTEMPT].converts then headers[ATTEMPT].asInt else 1
  }

  datatype Kind = Retry | Fatal

  function FinalHeaders(headers: Headers, kind: Kind): Headers {
    headers[ATTEMPT := IntHeader(if kind == Retry then Attempt(headers) + 1 else 1)]
  }

  datatype Copy = Copy(content: seq<int>, contentType: string, encoding: string, headers: Headers)

  /** The arguments of a declared queue; an expired message goes to `deadLetterTo`. */
  datatype QueueArgs = Plain | Delayed(ttl: int, deadLetterTo: string)

  datatype Delay = Delay(millis: int, text: string)

  datatype Request = Request(kind: Kind, content: seq<int>, contentType: string, delay: Delay)

  function QueueName(original: string, q: Request): string {
    if q.kind == Retry then "retry-" + original + "-" + q.delay.text else "fatal-" + original
  }

  function Args(original: string, q: Request): QueueArgs {
    if q.kind == Retry then Delayed(q.delay.millis, original) else Plain
  }

  /** Whether an operation fails, and whether it took effect all the same. */
  datatype Fault = Works | FailsBefore | FailsAfter

  datatype Confirm = Acked | Nacked | Cancelled

  /** What goes wrong during one call. `landed` says whether a publish that was not confirmed
      reached its queue after all. */
  datatype Faults = Faults(direct: Fault, declare: Fault, channel: bool, publish: Fault, confirm: Confirm, landed: bool,
                           nack: Fault)

  /** The broker's side: whether it still holds the original, the queues declared, and the
      copies taken, each with its queue. A copy for an undeclared queue is dropped. */
  datatype World = World(complete: bool, original: bool, declared: map<string, QueueArgs>, queued: seq<(string, Copy)>)

  datatype Call = Ack | Reject | Requeue(q: Request)

  datatype Message = Message(queueName: string, body: seq<int>, contentType: string, encoding: string, headers: Headers)

  // ----- The effect of one call

  function Remove(w: World, f: Fault): World {
    if f == FailsBefore then w else w.(original := false)
  }

  function Declare(w: World, name: string, args: QueueArgs, f: Fault): (World, bool) {
    if name in w.declared && w.declared[name] != args then (w, false)
    else (if f == FailsBefore then w else w.(declared := w.declared[name := args]), f == Works)
  }

  function Land(w: World, name: string, copy: Copy): World {
    if name in w.declared then w.(queued := w.queued + [(name, copy)]) else w
  }

  /** Publishing succeeds only on a positive confirmation, and that only for a copy taken. */
  function Publish(w: World, name: string, copy: Copy, f: Faults): (World, bool) {
    if !f.channel || f.publish == FailsBefore then (w, false)
    else if f.publish == Works && f.confirm == Acked then (Land(w, name, copy), true)
    else (if f.landed then Land(w, name, copy) else w, false)
  }

  function CopyOf(m: Message, q: Request): Copy {
    Copy(q.content, q.contentType, IDENTITY, FinalHeaders(m.headers, q.kind))
  }

  /** Declare the queue, publish the copy to it, and only then reject the original. */
  function RequeueOn(w: World, m: Message, q: Request, f: Faults): (World, bool) {
    var name := QueueName(m.queueName, q);
    var (w1, declared) := Declare(w, name, Args(m.queueName, q), f.declare);
    if !declared then (w1, false)
    else
      var (w2, published) := Publish(w1, name, CopyOf(m, q), f);
      if !published then (w2, false) else (Remove(w2, f.nack), f.nack == Works)
  }

  function Run(w: World, m: Message, c: Call, f: Faults): (World, bool) {
    if c.Requeue? then RequeueOn(w, m, c.q, f) else (Remove(w, f.direct), f.direct == Works)
  }

  function Respond(w: World, m: Message, c: Call, f: Faults): (World, bool) {
    if w.complete then (w, false)
    else
      var r := Run(w, m, c, f);
      (if r.1 then r.0.(complete := true) else r.0, r.1)
  }

  /** The calls of a delivery's life, one after the other. */
  function Calls(w: World, m: Message, calls: seq<(Call, Faults)>): (World, nat)
    decreases |calls|
  {
    if calls == [] then (w, 0)
    else
      var (w1, ok) := Respond(w, m, calls[0].0, calls[0].1);
      var (w2, n) := Calls(w1, m, calls[1..]);
      (w2, n + if ok then 1 else 0)
  }

  // ----- Never lost

  /** A copy that `q` asked for is in the queue `q` declared, which leads back to the
      original queue if it is a retry. */
  predicate Saved(w: World, m: Message, q: Request) {
    var name := QueueName(m.queueName, q);
    && name in w.declared && w.declared[name] == Args(m.queueName, q)
    && (name, CopyOf(m, q)) in w.queued
  }

  /** The i-th call is an Ack or a Reject that reached the broker while it held the original. */
  predicate Settled(w: World, m: Message, calls: seq<(Call, Faults)>, i: nat)
    requires i < |calls|
  {
    var before := Calls(w, m, calls[..i]).0;
    !calls[i].0.Requeue? && calls[i].1.direct != FailsBefore && before.original && !before.complete
  }

  /** After `k` calls the broker holds the original, or one of them settled it on request, or
      one of them has its copy saved. */
  ghost predicate Safe(w: World, m: Message, calls: seq<(Call, Faults)>, k: nat)
    requires k <= |calls|
  {
    var now := Calls(w, m, calls[..k]).0;
    || now.original
    || (exists i :: 0 <= i < k && Settled(w, m, calls, i))
    || exists i :: 0 <= i < k && calls[i].0.Requeue? && Saved(now, m, calls[i].0.q)
  }

  /** Nothing taken by the broker is given up by a later call. */
  lemma RespondKeeps(w: World, m: Message, c: Call, f: Faults, q: Request)
    requires Saved(w, m, q)
    ensures Saved(Respond(w, m, c, f).0, m, q)
  {
  }

  lemma RespondSafe(w: World, m: Message, c: Call, f: Faults)
    requires w.original && c.Requeue? && !Respond(w, m, c, f).0.original
    ensures Saved(Respond(w, m, c, f).0, m, c.q)
  {
    var name := QueueName(m.queueName, c.q);
    var w1 := Declare(w, name, Args(m.queueName, c.q), f.declare).0;
    var w2 := Land(w1, name, CopyOf(m, c.q));
    assert w2.queued[|w1.queued|] == (name, CopyOf(m, c.q));
  }

  /** Whatever is called and whatever fails, the message is not lost. */
  lemma {:induction false} NeverLost(w: World, m: Message, calls: seq<(Call, Faults)>, k: nat)
    requires k <= |calls| && w.original && !w.complete
    ensures Safe(w, m, calls, k)
    decreases k
  {
    if k == 0 {
      assert calls[..0] == [];
    } else {
      NeverLost(w, m, calls, k - 1);
      var i, c := k - 1, calls[k - 1];
      CallsLast(w, m, calls[..i], c);
      assert calls[..k] == calls[..i] + [c];
      var before := Calls(w, m, calls[..i]).0;
      if before.original {
        if c.0.Requeue? && !Respond(before, m, c.0, c.1).0.original {
          RespondSafe(before, m, c.0, c.1);
        }
        assert Respond(before, m, c.0, c.1).0.original || c.0.Requeue? || Settled(w, m, calls, i);
      } else if j :| 0 <= j < i && calls[j].0.Requeue? && Saved(before, m, calls[j].0.q) {
        RespondKeeps(before, m, c.0, c.1, calls[j].0.q);
      }
    }
  }

  lemma {:induction false} CallsLast(w: World, m: Message, calls: seq<(Call, Faults)>, c: (Call, Faults))
    ensures var (w1, n) := Calls(w, m, calls); var (w2, ok) := Respond(w1, m, c.0, c.1);
            Calls(w, m, calls + [c]) == (w2, n + if ok then 1 else 0)
    decreases |calls|
  {
    if calls == [] {
      assert (calls + [c])[1..] == [];
    } else {
      assert (calls + [c])[1..] == calls[1..] + [c];
      CallsLast(Respond(w, m, calls[0].0, calls[0].1).0, m, calls[1..], c);
    }
  }

  /** At most one call succeeds, and none after it has any effect. */
  lemma {:induction false} AnsweredOnce(w: World, m: Message, calls: seq<(Call, Faults)>)
    ensures Calls(w, m, calls).1 <= 1
    ensures w.complete ==> Calls(w, m, calls) == (w, 0)
    ensures !w.complete ==> (Calls(w, m, calls).0.complete <==> Calls(w, m, calls).1 == 1)
    decreases |calls|
  {
    if calls != [] {
      AnsweredOnce(Respond(w, m, calls[0].0, calls[0].1).0, m, calls[1..]);
    }
  }

  /** A requeue that succeeds has replaced the original by its copy; one that fails before the
      copy is confirmed still has the original. */
  lemma RequeueOutcome(w: World, m: Message, q: Request, f: Faults)
    requires w.original && !w.complete
    ensures var (w1, ok) := Respond(w, m, Requeue(q), f);
      && (ok ==> !w1.original && Saved(w1, m, q) && w1.queued == w.queued + [(QueueName(m.queueName, q), CopyOf(m, q))])
      && (!ok && !(f.publish == Works && f.confirm == Acked) ==> w1.original)
  {
    if Respond(w, m, Requeue(q), f).1 {
      RespondSafe(w, m, Requeue(q), f);
    }
  }

  // ----- Attempts along a chain of requeues

  function Chain(headers: Headers, kinds: seq<Kind>): Headers
    decreases |kinds|
  {
    if kinds == [] then headers else Chain(FinalHeaders(headers, kinds[0]), kinds[1..])
  }

  /** The retries after the last fatal, and whether there was one. */
  function RetriesSinceFatal(kinds: seq<Kind>): nat {
    if kinds == [] || kinds[|kinds| - 1] == Fatal then 0 else 1 + RetriesSinceFatal(kinds[..|kinds| - 1])
  }

  lemma {:induction false} ChainLast(headers: Headers, kinds: seq<Kind>, k: Kind)
    ensures Chain(headers, kinds + [k]) == FinalHeaders(Chain(headers, kinds), k)
    decreases |kinds|
  {
    if kinds == [] {
      assert (kinds + [k])[1..] == [];
    } else {
      assert (kinds + [k])[1..] == kinds[1..] + [k];
      ChainLast(FinalHeaders(headers, kinds[0]), kinds[1..], k);
    }
  }

  /** Requeued any number of times, a message's attempt is the retries since its last fatal on
      top of 1, or of where it started, and every other header is untouched. */
  lemma {:induction false} ChainCounts(headers: Headers, kinds: seq<Kind>)
    ensures Attempt(Chain(headers, kinds)) == RetriesSinceFatal(kinds) + if Fatal in kinds then 1 else Attempt(headers)
    ensures Chain(headers, kinds) - {ATTEMPT} == headers - {ATTEMPT}
    decreases |kinds|
  {
    if kinds != [] {
      var init, k := kinds[..|kinds| - 1], kinds[|kinds| - 1];
      assert kinds == init + [k];
      ChainCounts(headers, init);
      ChainLast(headers, init, k);
    }
  }

  // ----- Reading a message and its copies

  /** The bytes that `Parse` hands to the JSON parser; none where it fails before. `inflate` undoes
      the compression, and fails on bytes that are not compressed. */
  function Read(body: seq<int>, contentType: string, encoding: string,
                inflate: seq<int> -> Option<seq<int>>): Option<seq<int>> {
    if contentType != JSON then None
    else if encoding == IDENTITY || encoding == "" then Some(body)
    else if encoding == COMPRESS then inflate(body)
    else None
  }

  /** Only JSON is read, plain or compressed: the body as it is, or decompressed. */
  lemma ReadExactlyWhen(body: seq<int>, contentType: string, encoding: string, inflate: seq<int> -> Option<seq<int>>,
                        content: seq<int>)
    ensures Read(body, contentType, encoding, inflate) == Some(content) <==>
      && contentType == "application/json"
      && ((encoding in {"identity", ""} && content == body) ||
          (encoding == "compress" && inflate(body) == Some(content)))
  {
  }

  /** A message as it is published. */
  function Published(queueName: string, content: seq<int>, contentType: string, headers: Headers, compress: bool,
                     deflate: seq<int> -> seq<int>): Message {
    if compress then Message(queueName, deflate(content), contentType, COMPRESS, headers)
    else Message(queueName, content, contentType, IDENTITY, headers)
  }

  /** The copy that a retry or a fatal makes, which repeats the body as it came, delivered. */
  function Redelivered(m: Message, kind: Kind): Message {
    var copy := CopyOf(m, Request(kind, m.body, m.contentType, Delay(0, "0s")));
    Message(m.queueName, copy.content, copy.contentType, copy.encoding, copy.headers)
  }

  function RedeliveredAfter(m: Message, kinds: seq<Kind>): Message
    decreases |kinds|
  {
    if kinds == [] then m else RedeliveredAfter(Redelivered(m, kinds[0]), kinds[1..])
  }

  lemma {:induction false} CopyKeeps(m: Message, kinds: seq<Kind>)
    ensures
      var copy := RedeliveredAfter(m, kinds);
      && copy.body == m.body && copy.contentType == m.contentType && copy.headers == Chain(m.headers, kinds)
      && copy.encoding == if kinds == [] then m.encoding else IDENTITY
    decreases |kinds|
  {
    if kinds != [] {
      CopyKeeps(Redelivered(m, kinds[0]), kinds[1..]);
    }
  }

  /** After any retries and fatals a message reads as it did, exactly if it cannot be parsed anyway,
      is not encoded, or is its own decompression: the copy of an encoded body is not marked as
      encoded. */
  lemma CopyReadsExactlyWhen(m: Message, kinds: seq<Kind>, inflate: seq<int> -> Option<seq<int>>)
    requires kinds != []
    ensures
      var copy := RedeliveredAfter(m, kinds);
      Read(copy.body, copy.contentType, copy.encoding, inflate) == Read(m.body, m.contentType, m.encoding, inflate) <==>
        || m.contentType != JSON || m.encoding in {IDENTITY, ""}
        || (m.encoding == COMPRESS && inflate(m.body) == Some(m.body))
  {
    CopyKeeps(m, kinds);
  }

  /** A published message reads as its content, and so do its copies unless it was compressed. */
  lemma PublishedReads(queueName: string, content: seq<int>, headers: Headers, compress: bool, kinds: seq<Kind>,
                       deflate: seq<int> -> seq<int>, inflate: seq<int> -> Option<seq<int>>)
    requires inflate(deflate(content)) == Some(content)
    ensures
      var m := RedeliveredAfter(Published(queueName, content, JSON, headers, compress, deflate), kinds);
      Read(m.body, m.contentType, m.encoding, inflate) == Some(content) <==>
        kinds == [] || !compress || deflate(content) == content
  {
    CopyKeeps(Published(queueName, content, JSON, headers, compress, deflate), kinds);
  }

  // ----- The delivery itself

  class Broker {
    var original: bool
    var declared: map<string, QueueArgs>
    var queued: seq<(string, Copy)>

    constructor ()
      ensures original && declared == map[] && queued == []
    {
      original, declared, queued := true, map[], [];
    }

    /** Acknowledges or rejects the original. */
    method Settle(f: Fault) returns (ok: bool)
      modifies this
      ensures ok <==> f == Works
      ensures original == (old(original) && f == FailsBefore) && declared == old(declared) && queued == old(queued)
    {
      if f != FailsBefore {
        original := false;
      }
      ok := f == Works;
    }

    method QueueDeclare(name: string, args: QueueArgs, f: Fault) returns (ok: bool)
      modifies this
      ensures original == old(original) && queued == old(queued)
      ensures name in old(declared) && old(declared)[name] != args ==> !ok && declared == old(declared)
      ensures !(name in old(declared) && old(declared)[name] != args) ==>
        (ok <==> f == Works) && declared == if f == FailsBefore then old(declared) else old(declared)[name := args]
    {
      if name in declared && declared[name] != args {
        return false;
      }
      if f != FailsBefore {
        declared := declared[name := args];
      }
      ok := f == Works;
    }

    method Take(name: string, copy: Copy)
      modifies this
      ensures original == old(original) && declared == old(declared)
      ensures queued == if name in declared then old(queued) + [(name, copy)] else old(queued)
    {
      if name in declared {
        queued := queued + [(name, copy)];
      }
    }
  }

  class Delivery {
    const m: Message
    const broker: Broker
    var complete: bool

    constructor (m: Message, broker: Broker)
      ensures this.m == m && this.broker == broker && !complete
    {
      this.m, this.broker, complete := m, broker, false;
    }

    function TheWorld(): (w: World)
      reads this, broker
    {
      World(complete, broker.original, broker.declared, broker.queued)
    }

    /** One copy of this message was queued, on the given attempt. */
    ghost predicate AddedCopy(before: seq<(string, Copy)>, after: seq<(string, Copy)>, name: string, attempt: int) {
      && |after| == |before| + 1 && after[..|before|] == before && after[|before|].0 == name
      && var copy := after[|before|].1;
      && copy.content == m.body && copy.contentType == m.contentType && copy.encoding == "identity"
      && Attempt(copy.headers) == attempt && copy.headers - {ATTEMPT} == m.headers - {ATTEMPT}
    }

    method FinalHeadersOf(kind: Kind) returns (headers: Headers)
      ensures headers == FinalHeaders(m.headers, kind)
      ensures Attempt(headers) == (if kind == Retry then Attempt(m.headers) + 1 else 1)
      ensures headers - {ATTEMPT} == m.headers - {ATTEMPT}
      ensures "x-zote-attempt" in headers && headers["x-zote-attempt"].converts
      ensures kind == Fatal ==> headers["x-zote-attempt"].asInt == 1
      ensures kind == Retry ==>
        var numbered := "x-zote-attempt" in m.headers && m.headers["x-zote-attempt"].converts;
        headers["x-zote-attempt"].asInt == if numbered then m.headers["x-zote-attempt"].asInt + 1 else 2
    {
      headers := m.headers;
      if kind == Retry {
        headers := headers[ATTEMPT := IntHeader(Attempt(m.headers) + 1)];
      } else {
        headers := headers[ATTEMPT := IntHeader(1)];
      }
    }

    /** Opens a channel in confirm mode, publishes, and waits for the confirmation. */
    method PublishCopy(name: string, copy: Copy, f: Faults) returns (ok: bool)
      modifies broker
      ensures (TheWorld(), ok) == Publish(old(TheWorld()), name, copy, f)
      ensures ok <==> f.channel && f.publish == Works && f.confirm == Acked
      ensures broker.original == old(broker.original) && broker.declared == old(broker.declared)
      ensures ok && name in broker.declared ==> broker.queued == old(broker.queued) + [(name, copy)]
      ensures broker.queued == old(broker.queued) || broker.queued == old(broker.queued) + [(name, copy)]
    {
      if !f.channel || f.publish == FailsBefore {
        return false;
      }
      if f.publish == Works && f.confirm == Acked {
        broker.Take(name, copy);
        return true;
      }
      if f.landed {
        broker.Take(name, copy);
      }
      ok := false;
    }

    /** The queue can be declared: it is not there with other arguments. */
    ghost predicate Declarable(name: string, args: QueueArgs)
      reads broker
    {
      name in broker.declared ==> broker.declared[name] == args
    }

    /** Nothing goes wrong on the way of a requeue. */
    ghost predicate Unhindered(f: Faults) {
      f.declare == Works && f.channel && f.publish == Works && f.confirm == Acked && f.nack == Works
    }

    method RequeueMessage(q: Request, f: Faults) returns (ok: bool)
      modifies broker
      ensures (TheWorld(), ok) == RequeueOn(old(TheWorld()), m, q, f)
      ensures ok <==> Unhindered(f) && old(Declarable(QueueName(m.queueName, q), Args(m.queueName, q)))
    {
      var name := QueueName(m.queueName, q);
      ok := broker.QueueDeclare(name, Args(m.queueName, q), f.declare);
      if !ok {
        return;
      }
      var headers := FinalHeadersOf(q.kind);
      ok := PublishCopy(name, Copy(q.content, q.contentType, IDENTITY, headers), f);
      if !ok {
        return;
      }
      ok := broker.Settle(f.nack);
    }

    /** Runs the response once: refused when one has succeeded before, marked complete only on success. */
    method Answer(c: Call, f: Faults) returns (ok: bool)
      modifies this, broker
      ensures (TheWorld(), ok) == Respond(old(TheWorld()), m, c, f)
      ensures complete == (old(complete) || ok)
      ensures !c.Requeue? ==>
        && (ok <==> !old(complete) && f.direct == Works)
        && broker.original == (old(broker.original) && (old(complete) || f.direct == FailsBefore))
        && broker.declared == old(broker.declared) && broker.queued == old(broker.queued)
      ensures c.Requeue? ==>
        var q := c.q;
        ok <==> !old(complete) && Unhindered(f) && old(Declarable(QueueName(m.queueName, q), Args(m.queueName, q)))
    {
      if complete {
        return false;
      }
      match c {
        case Requeue(q) => ok := RequeueMessage(q, f);
        case Ack => ok := broker.Settle(f.direct);
        case Reject => ok := broker.Settle(f.direct);
      }
      ghost var after := TheWorld();
      if ok {
        complete := true;
        assert TheWorld() == after.(complete := true);
      }
    }

    method RetryDelayed(delay: Delay, f: Faults) returns (ok: bool)
      modifies this, broker
      ensures (TheWorld(), ok) == Respond(old(TheWorld()), m, Requeue(Request(Retry, m.body, m.contentType, delay)), f)
      ensures
        var name, args := "retry-" + m.queueName + "-" + delay.text, Delayed(delay.millis, m.queueName);
        ok <==> !old(complete) && Unhindered(f) && old(Declarable(name, args))
      ensures ok ==> !old(complete) && complete && !broker.original && f.publish == Works && f.confirm == Acked
      ensures ok ==>
        var name := "retry-" + m.queueName + "-" + delay.text;
        && name in broker.declared && broker.declared[name] == Delayed(delay.millis, m.queueName)
        && AddedCopy(old(broker.queued), broker.queued, name, Attempt(m.headers) + 1)
      ensures !ok ==> complete == old(complete)
      ensures !ok && (f.publish != Works || f.confirm != Acked) ==> broker.original == old(broker.original)
    {
      ok := Answer(Requeue(Request(Retry, m.body, m.contentType, delay)), f);
    }

    method FatalMessage(f: Faults) returns (ok: bool)
      modifies this, broker
      ensures (TheWorld(), ok) ==
        Respond(old(TheWorld()), m, Requeue(Request(Fatal, m.body, m.contentType, Delay(0, "0s"))), f)
      ensures ok <==> !old(complete) && Unhindered(f) && old(Declarable("fatal-" + m.queueName, Plain))
      ensures ok ==> !old(complete) && complete && !broker.original && f.publish == Works && f.confirm == Acked
      ensures ok ==>
        var name := "fatal-" + m.queueName;
        && name in broker.declared && broker.declared[name] == Plain
        && AddedCopy(old(broker.queued), broker.queued, name, 1)
      ensures !ok ==> complete == old(complete)
      ensures !ok && (f.publish != Works || f.confirm != Acked) ==> broker.original == old(broker.original)
    {
      ok := Answer(Requeue(Request(Fatal, m.body, m.contentType, Delay(0, "0s"))), f);
    }
  }
}
