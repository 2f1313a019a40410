/**
 * The replying sockets: the raw one with its table of pipe keys, and the full one that keeps the
 * backtrace of the request in progress.
 */
module RepSocket {
  import opened Bytes
  import opened Wire
  import opened Routing
  import opened Wrappers

  datatype PipeData = PipeData(key: word, out: bool)

  /** A replying socket's pipes by key, and their data. */
  datatype Table = Table(outpipes: map<word, Pipe>, data: map<Pipe, PipeData>)

  /** Each registered pipe is in the table under its own key, and no other is. */
  ghost predicate TableOk(t: Table) {
    && (forall p :: p in t.data ==> t.data[p].key in t.outpipes && t.outpipes[t.data[p].key] == p)
    && (forall k :: k in t.outpipes ==> t.outpipes[k] in t.data && t.data[t.outpipes[k]].key == k)
  }

  lemma TableAdds(t: Table, p: Pipe, key: word)
    requires TableOk(t) && p !in t.data && key !in t.outpipes
    ensures TableOk(Table(t.outpipes[key := p], t.data[p := PipeData(key, false)]))
  {
  }

  /** nn_xrep_send: the pipe whose key is on top of the header, and the message without it. */
  function XRepSend(t: Table, m: Message): Option<(Pipe, Message)> {
    var popped := PopKey(m);
    if popped.None? || popped.value.0 !in t.outpipes then None
    else
      var p := t.outpipes[popped.value.0];
      if p !in t.data || !t.data[p].out then None else Some((p, popped.value.1))
  }

  /** A reply goes to `p` exactly when `p` is registered under the key on top of its header, and ready. */
  lemma SendBy(t: Table, m: Message, p: Pipe)
    requires TableOk(t)
    ensures (XRepSend(t, m).Some? && XRepSend(t, m).value.0 == p) <==>
            |m.sphdr| >= 4 && p in t.data && t.data[p].key == GetL(m.sphdr) && t.data[p].out
    ensures XRepSend(t, m).Some? ==> XRepSend(t, m).value.1 == Message(m.sphdr[4..], m.body)
  {
  }

  /** The key of the n-th pipe added to a socket whose first key is `first`. */
  function KeyOf(first: word, n: nat): word {
    WithoutTopBit((first + n) % 0x1_0000_0000)
  }

  /** Two pipes get the same key exactly when a multiple of 2^31 additions lie between them. */
  lemma KeyClash(first: word, n: nat, m: nat)
    ensures KeyOf(first, n) == KeyOf(first, m) <==> (n - m) % TOP_BIT == 0
    ensures !TopBit(KeyOf(first, n))
  {
    ModTop(first + n);
    ModTop(first + m);
    SameRest(first + n, first + m);
    assert first + n - (first + m) == n - m;
  }

  /** Each registered pipe has the key of its own addition. */
  ghost predicate Numbered(first: word, history: seq<Pipe>, order: map<Pipe, nat>, data: map<Pipe, PipeData>) {
    && order.Keys == data.Keys
    && forall p :: p in data ==>
         order[p] < |history| && history[order[p]] == p && data[p].key == KeyOf(first, order[p])
  }

  lemma NextKey(first: word, n: nat)
    ensures ((first + n) % 0x1_0000_0000 + 1) % 0x1_0000_0000 == (first + (n + 1)) % 0x1_0000_0000
  {
  }

  lemma NumberedAdds(first: word, history: seq<Pipe>, order: map<Pipe, nat>, data: map<Pipe, PipeData>, p: Pipe)
    requires Numbered(first, history, order, data) && p !in data
    ensures Numbered(first, history + [p], order[p := |history|],
                     data[p := PipeData(KeyOf(first, |history|), false)])
  {
  }

  /** nn_xrep.  `outpipes` is the hash table of module Hash, as the map it stands for. */
  class XRepSocket {
    var nextKey: word
    var outpipes: map<word, Pipe>
    var data: map<Pipe, PipeData>

    ghost var first: word
    ghost var added: nat
    /** The pipes that were ever added, in order, and which of the additions is that of each registered one. */
    ghost var history: seq<Pipe>
    ghost var order: map<Pipe, nat>

    ghost predicate Valid()
      reads this
    {
      && nextKey == (first + added) % 0x1_0000_0000
      && |history| == added && Numbered(first, history, order, data)
      && TableOk(Value())
    }

    ghost function Value(): Table
      reads this
    {
      Table(outpipes, data)
    }

    constructor (seed: word)
      ensures Valid() && data == map[] && first == seed && added == 0
    {
      nextKey, outpipes, data := seed, map[], map[];
      first, added, history, order := seed, 0, [], map[];
    }

    /** The assertion of nn_hash_insert: no registered pipe has the key. */
    ghost predicate KeyIsFree()
      reads this
    {
      WithoutTopBit(nextKey) !in outpipes
    }

    /** The next key is free exactly when no pipe added a multiple of 2^31 additions ago is still registered. */
    lemma FreeKey()
      requires Valid()
      ensures KeyIsFree() <==> forall p :: p in data ==> (added - order[p]) % TOP_BIT != 0
    {
      forall p | p in data ensures data[p].key == WithoutTopBit(nextKey) <==> (added - order[p]) % TOP_BIT == 0 {
        KeyClash(first, added, order[p]);
      }
      if !KeyIsFree() {
        var p := outpipes[WithoutTopBit(nextKey)];
        assert p in data && (added - order[p]) % TOP_BIT == 0;
      }
    }

    /** nn_xrep_add */
    method Add(p: Pipe)
      requires Valid() && p !in data && KeyIsFree()
      modifies this
      ensures Valid() && first == old(first) && added == old(added) + 1 && history == old(history) + [p]
      ensures data == old(data)[p := PipeData(WithoutTopBit(old(nextKey)), false)]
      ensures order == old(order)[p := old(added)]
    {
      var key := WithoutTopBit(nextKey);
      TableAdds(Value(), p, key);
      NumberedAdds(first, history, order, data, p);
      NextKey(first, added);
      ghost var n, table := added, Table(outpipes[key := p], data[p := PipeData(key, false)]);
      assert PipeData(key, false) == PipeData(KeyOf(first, n), false);
      outpipes := outpipes[key := p];
      data := data[p := PipeData(key, false)];
      assert Value() == table;
      nextKey := (nextKey + 1) % 0x1_0000_0000;
      order := order[p := n];
      added, history := n + 1, history + [p];
    }

    /** nn_xrep_rm */
    method Rm(p: Pipe)
      requires Valid() && p in data
      modifies this
      ensures Valid() && first == old(first) && added == old(added) && history == old(history)
      ensures data == old(data) - {p} && order == old(order) - {p}
    {
      outpipes := outpipes - {data[p].key};
      data := data - {p};
      order := order - {p};
    }

    /** nn_xrep_out */
    method Out(p: Pipe)
      requires Valid() && p in data
      modifies this`data
      ensures Valid()
      ensures data == old(data)[p := PipeData(old(data)[p].key, true)]
    {
      data := data[p := PipeData(data[p].key, true)];
    }

    /** nn_xrep_recv on a message from a registered pipe; None is a malformed request, dropped. */
    method Recv(p: Pipe, d: Delivered) returns (m: Option<Message>)
      requires Valid() && p in data
      ensures m == XRepRecv(d, data[p].key)
      ensures m.Some? ==> |m.value.sphdr| >= 4 && GetL(m.value.sphdr) == data[p].key
    {
      var key := data[p].key;
      if d.parsed {
        GetPut(key, d.message.sphdr);
        return Some(Message(PutL(key) + d.message.sphdr, d.message.body));
      }
      var i := 0;
      var body := d.message.body;
      while true
        invariant 0 <= i && Scan(body, 0) == Scan(body, i)
        decreases |body| - i * 4
      {
        if (i + 1) * 4 > |body| { return None; }
        if TopBit(GetL(body[i * 4..])) { break; }
        i := i + 1;
      }
      i := i + 1;
      GetPut(key, body[..i * 4]);
      return Some(Message(PutL(key) + body[..i * 4], body[i * 4..]));
    }

    /** nn_xrep_send; the result says which pipe got what, None for a reply that is dropped. */
    method Send(m: Message, release: bool) returns (sent: Option<(Pipe, Message)>)
      requires Valid()
      modifies this`data
      ensures Valid()
      ensures sent == XRepSend(old(Value()), m)
      ensures sent.None? ==> data == old(data)
      ensures sent.None? ==>
                |m.sphdr| < 4 || forall p :: p in data ==> data[p].key != GetL(m.sphdr) || !data[p].out
      ensures sent.Some? ==>
                && sent.value.1 == Message(m.sphdr[4..], m.body)
                && sent.value.0 in old(data) && |m.sphdr| >= 4 && old(data)[sent.value.0].key == GetL(m.sphdr)
                && old(data)[sent.value.0].out
                && data == old(data)[sent.value.0 := PipeData(GetL(m.sphdr), !release)]
    {
      forall p { SendBy(Value(), m, p); }
      if |m.sphdr| < 4 { return None; }
      var key := GetL(m.sphdr);
      var trimmed := Message(m.sphdr[4..], m.body);
      if key !in outpipes || !data[outpipes[key]].out { return None; }
      var p := outpipes[key];
      if release { data := data[p := PipeData(key, false)]; } else { assert data == data[p := PipeData(key, true)]; }
      return Some((p, trimmed));
    }
  }

  datatype SendCode = NoRequest | Dropped | Sent(to: Pipe, message: Message)

  /** nn_rep: the raw socket and the backtrace of the request in progress. */
  class ReplySocket {
    const xrep: XRepSocket
    var inProgress: bool
    var backtrace: seq<byte>

    /** The pipe the request in progress came from, and when that pipe was added. */
    ghost var from: Pipe
    ghost var fromOrder: nat

    /** The requesting pipe is still the one the request came from. */
    ghost predicate StillRegistered()
      reads this, xrep
    {
      from in xrep.data && from in xrep.order && xrep.order[from] == fromOrder
    }

    ghost predicate Valid()
      reads this, xrep
    {
      && xrep.Valid()
      && (inProgress ==>
            && |backtrace| >= 4
            && fromOrder < xrep.added && xrep.history[fromOrder] == from
            && GetL(backtrace) == KeyOf(xrep.first, fromOrder))
    }

    constructor (seed: word)
      ensures Valid() && !inProgress && xrep.data == map[] && fresh(xrep)
    {
      xrep := new XRepSocket(seed);
      inProgress, backtrace := false, [];
    }

    /** nn_rep_recv: a request already in progress is cancelled, whatever the outcome. */
    method Recv(p: Pipe, d: Delivered) returns (body: Option<seq<byte>>)
      requires Valid() && p in xrep.data
      modifies this
      ensures Valid()
      ensures var m := XRepRecv(d, xrep.data[p].key);
              && inProgress == m.Some?
              && (m.None? ==> body == None)
              && (m.Some? ==>
                    && body == Some(m.value.body) && backtrace == m.value.sphdr
                    && from == p && StillRegistered())
    {
      inProgress := false;
      var m := xrep.Recv(p, d);
      if m.None? { return None; }
      backtrace := m.value.sphdr;
      inProgress := true;
      from, fromOrder := p, xrep.order[p];
      return Some(m.value.body);
    }

    /** Fewer than 2^31 pipes have been added between the request's pipe and any that is registered. */
    ghost predicate Recent()
      requires xrep.Valid()
      reads this, xrep
    {
      forall q :: q in xrep.data ==> -TOP_BIT < xrep.order[q] - fromOrder < TOP_BIT
    }

    /**
     * nn_rep_send: one reply per request, by the pipe that is registered under the key on top of the backtrace
     * and ready, if there is one; that is the pipe the request came from as long as keys do not come again.
     */
    method Send(body: seq<byte>, release: bool) returns (r: SendCode)
      requires Valid()
      modifies this`inProgress, xrep`data
      ensures Valid() && !inProgress
      ensures r == NoRequest <==> !old(inProgress)
      ensures r.Sent? ==>
                && r.message == Message(backtrace[4..], body)
                && r.to in old(xrep.data) && old(xrep.data)[r.to].key == GetL(backtrace) && old(xrep.data)[r.to].out
      ensures r == Dropped ==>
                forall p :: p in old(xrep.data) && old(xrep.data)[p].key == GetL(backtrace) ==> !old(xrep.data)[p].out
      ensures xrep.data == if r.Sent? then old(xrep.data)[r.to := PipeData(GetL(backtrace), !release)]
                           else old(xrep.data)
      ensures old(inProgress) && old(StillRegistered()) && old(xrep.data)[from].out ==> r.Sent? && r.to == from
      ensures old(inProgress) && old(Recent()) ==>
                if old(StillRegistered()) && old(xrep.data)[from].out then r.Sent? && r.to == from else r == Dropped
    {
      if !inProgress { return NoRequest; }
      forall q | Recent() && q in xrep.data && xrep.data[q].key == GetL(backtrace)
        ensures q == from && StillRegistered()
      {
        OnlyRequesterGetsReply(q);
      }
      var m := Message(backtrace, body);
      forall p { SendBy(xrep.Value(), m, p); }
      inProgress := false;
      var sent := xrep.Send(m, release);
      return if sent.None? then Dropped else Sent(sent.value.0, sent.value.1);
    }

    /**
     * Pipes come, go and become ready; the request in progress stays with its pipe, and without
     * 2^31 additions in between no other pipe can get its reply.
     */
    lemma OnlyRequesterGetsReply(q: Pipe)
      requires Valid() && inProgress && q in xrep.data && xrep.data[q].key == GetL(backtrace)
      requires -TOP_BIT < xrep.order[q] - fromOrder < TOP_BIT
      ensures xrep.order[q] == fromOrder && q == from
    {
      KeyClash(xrep.first, xrep.order[q], fromOrder);
      SmallMultiple(xrep.order[q] - fromOrder);
    }
  }
}
