/**
 * The routing stack in request and reply headers.
 *
 * A request carries, below the keys pushed by the nodes it passed, the requester's identifier with
 * its top bit set.  Every replying socket pushes the key of the pipe a request came from and pops
 * it again from the reply.
 */
module Routing {
  import opened Bytes
  import opened Wire
  import opened Wrappers

  type Pipe = nat

  /** A message: protocol header and body. */
  datatype Message = Message(sphdr: seq<byte>, body: seq<byte>)

  /** A message as a pipe hands it over; `parsed` when the transport kept the header apart. */
  datatype Delivered = Delivered(parsed: bool, message: Message)

  /** What a transport makes of a message: in one process the header stays apart, on a wire it leads the body. */
  function Carry(m: Message, parsed: bool): Delivered {
    if parsed then Delivered(true, m) else Delivered(false, Message([], m.sphdr + m.body))
  }

  // ------------------------------------------------------------------------- one socket's part

  /** The scan of nn_xrep_recv from word `i`: the words up to and including the bottom of the stack. */
  function Scan(data: seq<byte>, i: nat): (n: Option<nat>)
    ensures n.Some? ==> i < n.value && n.value * 4 <= |data|
    decreases |data| - i * 4
  {
    if (i + 1) * 4 > |data| then None
    else if TopBit(GetL(data[i * 4..])) then Some(i + 1)
    else Scan(data, i + 1)
  }

  /** nn_xrep_recv: split the header off if need be and push the key of the pipe; None drops the message. */
  function XRepRecv(d: Delivered, key: word): Option<Message> {
    if d.parsed then Some(Message(PutL(key) + d.message.sphdr, d.message.body))
    else
      var n := Scan(d.message.body, 0);
      if n.None? then None
      else Some(Message(PutL(key) + d.message.body[..n.value * 4], d.message.body[n.value * 4..]))
  }

  /** The destination key of a reply and the reply without it; None for a header that is too short. */
  function PopKey(m: Message): Option<(word, Message)> {
    if |m.sphdr| < 4 then None else Some((GetL(m.sphdr), Message(m.sphdr[4..], m.body)))
  }

  /** nn_xreq_recv: split one word off if need be; None drops the message. */
  function XReqRecv(d: Delivered): Option<Message> {
    if d.parsed then Some(d.message)
    else if |d.message.body| < 4 then None
    else Some(Message(d.message.body[..4], d.message.body[4..]))
  }

  // --------------------------------------------------------------------------------- the stack

  /** Keys from the top down, then the identifier at the bottom. */
  function Stack(keys: seq<word>, bottom: word): (s: seq<byte>)
    ensures |s| == 4 * |keys| + 4
  {
    if keys == [] then PutL(bottom) else PutL(keys[0]) + Stack(keys[1..], bottom)
  }

  predicate Keys(keys: seq<word>) {
    forall i :: 0 <= i < |keys| ==> !TopBit(keys[i])
  }

  lemma {:induction false} ScanShift(head: seq<byte>, data: seq<byte>, i: nat)
    requires |head| == 4
    ensures Scan(head + data, i + 1) ==
            if Scan(data, i).None? then None else Some(Scan(data, i).value + 1)
    decreases |data| - i * 4
  {
    if (i + 1) * 4 <= |data| {
      assert (head + data)[(i + 1) * 4..] == data[i * 4..];
      ScanShift(head, data, i + 1);
    }
  }

  /** Whatever the body, the scan finds exactly the stack: no key has the top bit set. */
  lemma {:induction false} ScanFindsStack(keys: seq<word>, bottom: word, body: seq<byte>)
    requires Keys(keys) && TopBit(bottom)
    ensures Scan(Stack(keys, bottom) + body, 0) == Some(|keys| + 1)
    decreases |keys|
  {
    var data := Stack(keys, bottom) + body;
    assert data[0..] == data;
    if keys == [] {
      GetPut(bottom, body);
    } else {
      var rest := Stack(keys[1..], bottom) + body;
      assert data == PutL(keys[0]) + rest;
      GetPut(keys[0], rest);
      ScanShift(PutL(keys[0]), rest, 0);
      ScanFindsStack(keys[1..], bottom, body);
    }
  }

  /** A stack whose bottom has no top bit is dropped, unless the body happens to supply one. */
  lemma {:induction false} ScanNeedsBottom(data: seq<byte>, i: nat)
    ensures Scan(data, i).None? <==>
              forall j :: i <= j && (j + 1) * 4 <= |data| ==> !TopBit(GetL(data[j * 4..]))
    decreases |data| - i * 4
  {
    if (i + 1) * 4 <= |data| && !TopBit(GetL(data[i * 4..])) {
      ScanNeedsBottom(data, i + 1);
    }
  }

  // --------------------------------------------------------------------------------- the hops

  /** A node on the way: the key it gave the pipe the request came in by, and how the two links carry messages. */
  datatype Hop = Hop(key: word, parsedIn: bool, parsedBack: bool)

  /** The request on its way from the requester through all the nodes, as the last one holds it. */
  function Forward(hops: seq<Hop>, m: Message): Option<Message>
    decreases |hops|
  {
    if hops == [] then Some(m)
    else
      var r := XRepRecv(Carry(m, hops[0].parsedIn), hops[0].key);
      if r.None? then None else Forward(hops[1..], r.value)
  }

  /**
   * The reply on its way back, nearest node last in `hops`: each node pops a key, sends the message
   * by the pipe that key stands for, and the neighbour splits it again.  The result is the message the
   * requester's raw socket delivers and the keys popped, in order.
   */
  function Backward(hops: seq<Hop>, m: Message): Option<(Message, seq<word>)>
    decreases |hops|
  {
    if hops == [] then Some((m, []))
    else
      var last := hops[|hops| - 1];
      var popped := PopKey(m);
      if popped.None? then None
      else
        var r := XReqRecv(Carry(popped.value.1, last.parsedBack));
        if r.None? then None
        else
          var rest := Backward(hops[..|hops| - 1], r.value);
          if rest.None? then None else Some((rest.value.0, [popped.value.0] + rest.value.1))
  }

  /** The keys of the nodes, the last node's on top. */
  function KeysOf(hops: seq<Hop>): (keys: seq<word>)
    ensures |keys| == |hops|
  {
    if hops == [] then [] else [hops[|hops| - 1].key] + KeysOf(hops[..|hops| - 1])
  }

  lemma StackPush(key: word, keys: seq<word>, bottom: word)
    ensures Stack([key] + keys, bottom) == PutL(key) + Stack(keys, bottom)
  {
    assert ([key] + keys)[1..] == keys;
  }

  /** One node forward, whichever way the message was carried. */
  lemma PushOne(keys: seq<word>, bottom: word, body: seq<byte>, key: word, parsed: bool)
    requires Keys(keys) && TopBit(bottom)
    ensures XRepRecv(Carry(Message(Stack(keys, bottom), body), parsed), key) ==
            Some(Message(Stack([key] + keys, bottom), body))
  {
    StackPush(key, keys, bottom);
    if !parsed {
      ScanFindsStack(keys, bottom, body);
      assert (Stack(keys, bottom) + body)[..(|keys| + 1) * 4] == Stack(keys, bottom);
      assert (Stack(keys, bottom) + body)[(|keys| + 1) * 4..] == body;
    }
  }

  lemma KeysOfPrepend(hop: Hop, hops: seq<Hop>)
    ensures KeysOf([hop] + hops) == KeysOf(hops) + [hop.key]
    decreases |hops|
  {
    if hops != [] {
      assert ([hop] + hops)[..|hops|] == [hop] + hops[..|hops| - 1];
      KeysOfPrepend(hop, hops[..|hops| - 1]);
    } else {
      assert [hop] + hops == [hop] && [hop][..0] == [];
    }
  }

  lemma KeysOfFirst(hops: seq<Hop>, keys: seq<word>)
    requires hops != []
    ensures KeysOf(hops[1..]) + ([hops[0].key] + keys) == KeysOf(hops) + keys
  {
    assert hops == [hops[0]] + hops[1..];
    KeysOfPrepend(hops[0], hops[1..]);
  }

  /** After any number of nodes the header is the stack of their keys on the requester's identifier. */
  lemma {:induction false} ForwardPushes(hops: seq<Hop>, keys: seq<word>, bottom: word, body: seq<byte>)
    requires Keys(keys) && TopBit(bottom)
    requires forall i :: 0 <= i < |hops| ==> !TopBit(hops[i].key)
    ensures Forward(hops, Message(Stack(keys, bottom), body)) ==
            Some(Message(Stack(KeysOf(hops) + keys, bottom), body))
    decreases |hops|
  {
    if hops == [] {
      assert KeysOf(hops) + keys == keys;
    } else {
      PushOne(keys, bottom, body, hops[0].key, hops[0].parsedIn);
      ForwardPushes(hops[1..], [hops[0].key] + keys, bottom, body);
      KeysOfFirst(hops, keys);
    }
  }

  /**
   * No link that keeps the header apart comes, on the way back, after one that does not: such a
   * link would find the rest of the stack in the body.
   */
  predicate HeadersStayApart(hops: seq<Hop>) {
    forall i, j :: 0 <= i < j < |hops| && hops[i].parsedBack ==> hops[j].parsedBack
  }

  /** The requester gets its identifier and the reply, and each node popped its own key. */
  predicate Unwound(r: Option<(Message, seq<word>)>, hops: seq<Hop>, bottom: word, body: seq<byte>) {
    r == Some((Message(PutL(bottom), body), KeysOf(hops)))
  }

  /** A message whose stack starts in the header and goes on in the body, as after a wire. */
  function Cut(keys: seq<word>, bottom: word, body: seq<byte>): Message {
    var whole := Stack(keys, bottom) + body;
    Message(whole[..4], whole[4..])
  }

  lemma PopWhole(key: word, keys: seq<word>, bottom: word, body: seq<byte>, parsed: bool)
    ensures var m := Message(Stack([key] + keys, bottom), body);
            && PopKey(m) == Some((key, Message(Stack(keys, bottom), body)))
            && XReqRecv(Carry(PopKey(m).value.1, parsed)) ==
               Some(if parsed then Message(Stack(keys, bottom), body) else Cut(keys, bottom, body))
  {
    StackPush(key, keys, bottom);
    GetPut(key, Stack(keys, bottom));
  }

  /** What leads a message on a wire is a key and then the rest. */
  lemma CutPush(key: word, keys: seq<word>, bottom: word, body: seq<byte>)
    ensures Cut([key] + keys, bottom, body) == Message(PutL(key), Stack(keys, bottom) + body)
  {
    StackPush(key, keys, bottom);
    var rest := Stack(keys, bottom) + body;
    assert Stack([key] + keys, bottom) + body == PutL(key) + rest;
    GetPut(key, rest);
    assert (PutL(key) + rest)[..4] == PutL(key);
  }

  lemma PopOnly(key: word, rest: seq<byte>)
    ensures PopKey(Message(PutL(key), rest)) == Some((key, Message([], rest)))
  {
    GetPut(key, []);
    assert PutL(key) + [] == PutL(key);
  }

  lemma PopCut(key: word, keys: seq<word>, bottom: word, body: seq<byte>, parsed: bool)
    ensures var m := Cut([key] + keys, bottom, body);
            && PopKey(m) == Some((key, Message([], Stack(keys, bottom) + body)))
            && XReqRecv(Carry(PopKey(m).value.1, parsed)) ==
               Some(if parsed then Message([], Stack(keys, bottom) + body) else Cut(keys, bottom, body))
  {
    var rest := Stack(keys, bottom) + body;
    CutPush(key, keys, bottom, body);
    PopOnly(key, rest);
    assert [] + rest == rest;
  }

  /** A header of one word arrives whole by any transport, and without a whole word nothing does. */
  lemma OneWordArrives(m: Message, parsed: bool)
    requires |m.sphdr| == 4
    ensures XReqRecv(Carry(m, parsed)) == Some(m)
    ensures forall d: Delivered :: XReqRecv(d).None? <==> !d.parsed && |d.message.body| < 4
  {
    assert (m.sphdr + m.body)[..4] == m.sphdr && (m.sphdr + m.body)[4..] == m.body;
  }

  lemma CutBottom(bottom: word, body: seq<byte>)
    ensures Cut([], bottom, body) == Message(PutL(bottom), body)
  {
    assert (PutL(bottom) + body)[..4] == PutL(bottom);
  }

  /** The nodes but the last, and the last. */
  lemma KeysOfLast(hops: seq<Hop>)
    requires hops != []
    ensures KeysOf(hops) == [hops[|hops| - 1].key] + KeysOf(hops[..|hops| - 1])
  {
  }

  /** With the stack in the body, one more link that keeps the header apart loses the reply. */
  lemma {:induction false} BackwardCut(hops: seq<Hop>, bottom: word, body: seq<byte>)
    ensures Unwound(Backward(hops, Cut(KeysOf(hops), bottom, body)), hops, bottom, body) <==>
              forall i :: 0 <= i < |hops| ==> !hops[i].parsedBack
    decreases |hops|
  {
    if hops == [] {
      CutBottom(bottom, body);
    } else {
      var last, before := hops[|hops| - 1], hops[..|hops| - 1];
      KeysOfLast(hops);
      PopCut(last.key, KeysOf(before), bottom, body, last.parsedBack);
      if last.parsedBack {
        EmptyHeaderIsLost(before, Stack(KeysOf(before), bottom) + body, bottom, body);
      } else {
        BackwardCut(before, bottom, body);
      }
    }
  }

  lemma EmptyHeaderIsLost(hops: seq<Hop>, rest: seq<byte>, bottom: word, body: seq<byte>)
    ensures !Unwound(Backward(hops, Message([], rest)), hops, bottom, body)
  {
  }

  /** Unwinding a whole stack held in the header. */
  lemma {:induction false} BackwardWhole(hops: seq<Hop>, bottom: word, body: seq<byte>)
    ensures Unwound(Backward(hops, Message(Stack(KeysOf(hops), bottom), body)), hops, bottom, body) <==>
              HeadersStayApart(hops)
    decreases |hops|
  {
    if hops != [] {
      var last, before := hops[|hops| - 1], hops[..|hops| - 1];
      KeysOfLast(hops);
      PopWhole(last.key, KeysOf(before), bottom, body, last.parsedBack);
      assert HeadersStayApart(hops) <==>
               HeadersStayApart(before)
               && (!last.parsedBack ==> forall i :: 0 <= i < |before| ==> !before[i].parsedBack);
      if last.parsedBack {
        BackwardWhole(before, bottom, body);
      } else {
        BackwardCut(before, bottom, body);
      }
    }
  }

  /**
   * Over any number of nodes, and whatever the request's body: the request arrives with exactly the
   * nodes' keys on its header, and the reply unwinds to the requester's own identifier, popping at
   * each node the key that node pushed, exactly when no link that keeps headers apart follows one
   * that does not.
   */
  lemma RequestAndReply(hops: seq<Hop>, bottom: word, request: seq<byte>, reply: seq<byte>)
    requires TopBit(bottom) && forall i :: 0 <= i < |hops| ==> !TopBit(hops[i].key)
    ensures Forward(hops, Message(PutL(bottom), request)) == Some(Message(Stack(KeysOf(hops), bottom), request))
    ensures Unwound(Backward(hops, Message(Stack(KeysOf(hops), bottom), reply)), hops, bottom, reply) <==>
              HeadersStayApart(hops)
  {
    ForwardPushes(hops, [], bottom, request);
    assert KeysOf(hops) + [] == KeysOf(hops);
    BackwardWhole(hops, bottom, reply);
  }

  /** Two nodes, a wire back from the second and a link inside one process from the first: the reply is lost. */
  lemma MixedLinksLoseReply(k1: word, k2: word, bottom: word, reply: seq<byte>)
    ensures var hops := [Hop(k1, true, true), Hop(k2, false, false)];
            !Unwound(Backward(hops, Message(Stack(KeysOf(hops), bottom), reply)), hops, bottom, reply)
  {
    var hops := [Hop(k1, true, true), Hop(k2, false, false)];
    BackwardWhole(hops, bottom, reply);
    assert hops[0].parsedBack && !hops[1].parsedBack;
  }
}
