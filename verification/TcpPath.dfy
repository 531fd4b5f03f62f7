/**
 * A sending and a receiving TCP joined by a network that loses, repeats and reorders segments.  The
 * sender's stream only grows and no segment sent is ever wrong about it, so delivering the segments
 * to the receiver after the sender's run covers every way of delivering them during it; what the
 * receiver answers is among the arrivals of the sender's run, which are arbitrary.
 */
module TcpPath {
  import opened Common
  import opened SeqSpace
  import opened TcpStates
  import opened Reassembly
  import TcpSend
  import TcpRun
  import TcpReceive

  /** At the receiver: the k-th segment of the data phase arrives, or something else happens. */
  datatype Happening = Deliver(k: nat) | Other(e: TcpReceive.Event)

  /** An arrival that never is proper. */
  function Nothing(stream: seq<byte>): TcpReceive.Event { TcpReceive.Arrive(|stream| + 1, 0, false) }

  /** What a happening is to the receiver. */
  function Arrival(h: Happening, wire: seq<TcpSend.OutSeg>, log: seq<TcpRun.Emission>,
                   stream: seq<byte>): TcpReceive.Event
    requires |wire| == |log|
  {
    match h
    case Deliver(k) => if k < |log| then TcpReceive.Arrive(log[k].pos, |wire[k].data|, false) else Nothing(stream)
    case Other(e) => if e.Arrive? then Nothing(stream) else e
  }

  /** The segment that the receiver takes in on the arrival is the one the sender put on the wire. */
  ghost predicate Carries(e: TcpReceive.Event, o: TcpSend.OutSeg, isn: tcp_seq, stream: seq<byte>) {
    && e.Arrive? && e.off + e.len <= |stream|
    && TcpReceive.Encode(isn, Piece(e.off, stream[e.off..e.off + e.len], e.fin))
      == TcpReceive.Segment(o.sq, o.data, o.flags.fin)
  }

  lemma WireCarries(o: TcpSend.OutSeg, em: TcpRun.Emission, isn: tcp_seq, stream: seq<byte>)
    requires TcpRun.OnStream(o, em, isn, stream)
    ensures Carries(TcpReceive.Arrive(em.pos, |o.data|, false), o, isn, stream)
  {
  }

  /** Whatever the sender's run was, and whichever of its segments reach the receiver, in whatever
      order, any number of times: what the receiver hands to its host is a prefix of what the sender's
      host gave to send, exactly the bytes are held that arrived in the window of their time, all of
      it has been handed over once all of it has so arrived, and no end of file is made up. */
  method Transfer(c: TcpRun.Conn, events: seq<TcpRun.Event>, nets: seq<TcpSend.Supply>, datalen: nat,
                  happenings: seq<Happening>)
    returns (r: TcpReceive.Receiver, arrivals: seq<TcpReceive.Event>, ghost views: seq<TcpReceive.View>,
             ghost trace: seq<TcpRun.Snap>)
    requires c.Valid() && !c.gone && c.tp.state == TCPS_ESTABLISHED && !c.tp.sentFin && !c.tp.force
      && |nets| == |events|
    requires c.tp.sndNxt == c.tp.sndUna && c.tp.sndMax == c.tp.sndUna && |c.so.sndBuf| <= c.so.sndSize < 0x4000_0000
    requires datalen < 0x4000_0000
    modifies c
    ensures c.Valid() && TcpRun.Traced(events, nets, c.reass, trace) && trace[|events|] == c.Shot()
    ensures trace[0]
      == TcpRun.Snap(old(c.tp), old(c.so), old(c.queue), false, true, 0, old(c.so.sndBuf), old(c.wire), [])
    ensures c.stream == old(c.so.sndBuf) + TcpRun.Collected(events, trace)
    ensures !c.gone && (forall e :: e in events ==> !TcpRun.Leaves(e)) ==> c.live
    ensures fresh(r) && r.Valid() && r.stream == c.stream && |arrivals| == |views| == |happenings|
    ensures c.live ==> |c.log| == |c.wire| - old(|c.wire|) && forall i :: 0 <= i < |happenings| ==>
      && arrivals[i] == Arrival(happenings[i], c.wire[old(|c.wire|)..], c.log, c.stream)
      && (happenings[i].Deliver? && happenings[i].k < |c.log| ==>
            Carries(arrivals[i], c.wire[old(|c.wire|) + happenings[i].k], c.isn, c.stream))
    ensures c.live ==> r.isn == c.isn && r.host <= c.stream && r.host + r.rcvBuf == c.stream[..Min(r.nxt, |c.stream|)]
    ensures c.live ==> forall x: nat :: x < |c.stream| ==>
      (r.Has(x) <==> TcpReceive.Offered(arrivals, views, c.stream, x))
    ensures c.live && r.state >= TCPS_ESTABLISHED ==>
      (forall x: nat :: x < |c.stream| ==> TcpReceive.Offered(arrivals, views, c.stream, x)) ==>
      r.host + r.rcvBuf == c.stream
    ensures c.live ==> !r.eof
  {
    hide TcpRun.OnStream, TcpReceive.Offered, Carries, TcpRun.Traced, TcpRun.Sound;
    var n := |c.wire|;
    trace := TcpRun.SendRun(c, events, nets);
    var stream, log := c.stream, c.log;
    arrivals := seq(|happenings|, i => Nothing(stream));
    if c.live {
      var wire := c.wire[n..];
      arrivals := seq(|happenings|, i requires 0 <= i < |happenings| => Arrival(happenings[i], wire, log, stream));
      forall i | 0 <= i < |happenings| && happenings[i].Deliver? && happenings[i].k < |c.log|
        ensures Carries(arrivals[i], wire[happenings[i].k], c.isn, c.stream)
      {
        WireCarries(wire[happenings[i].k], c.log[happenings[i].k], c.isn, c.stream);
      }
    }
    var irs := Add(c.isn, -1);
    AddBack(c.isn);
    r, views := TcpReceive.Run(irs, c.stream, datalen, arrivals);
    NoFin(arrivals, views, c.stream);
  }

  /** Sender and receiver agree on the window that a connection advertises. */
  lemma SameWindow(tp: TcpSend.Tcb, so: TcpSend.Sock)
    ensures TcpSend.AdvertisedWindow(tp, so) ==
      Max(TcpReceive.Wanted(so.rcvSize - |so.rcvBuf|, so.rcvSize, tp.maxseg), Diff(tp.rcvAdv, tp.rcvNxt))
  {
  }

  /** Without a FIN among the arrivals none has arrived. */
  lemma NoFin(arrivals: seq<TcpReceive.Event>, views: seq<TcpReceive.View>, stream: seq<byte>)
    requires forall e :: e in arrivals && e.Arrive? ==> !e.fin
    ensures !TcpReceive.Closed(arrivals, views, stream)
  {
  }

  lemma AddBack(isn: tcp_seq)
    ensures Add(Add(isn, -1), 1) == isn
  {
  }
}
