/** code/network/post.cc over code/machine/network.cc: mail from many machines to the mailboxes of one.
    Packets may be lost on the way; what arrives is neither corrupted, nor duplicated, nor reordered. */
module PostOffices {
  import opened Bytes

  /** A PacketHeader or a MailHeader: two addresses and a length. */
  datatype Header = Header(to: Int32, from: Int32, length: Word)

  function EncodeHeader(h: Header): (s: seq<Byte>)
    ensures |s| == 12
  {
    EncodeWords([ToWord(h.to), ToWord(h.from), h.length])
  }

  function DecodeHeader(s: seq<Byte>): Header
    requires |s| == 12
  {
    var ws := DecodeWords(s);
    Header(ToInt(ws[0]), ToInt(ws[1]), ws[2])
  }

  lemma HeaderRoundTrip(h: Header)
    ensures DecodeHeader(EncodeHeader(h)) == h
  {
    hide EncodeWords, DecodeWords;
    var ws: seq<Word> := [ToWord(h.to), ToWord(h.from), h.length];
    WordsRoundTrip(ws);
    assert DecodeWords(EncodeHeader(h)) == ws;
  }

  /** A header lies in its 12 bytes as three little-endian words: to, from, length. */
  lemma HeaderLayout(s: seq<Byte>)
    requires |s| == 12
    ensures var h := DecodeHeader(s);
            && ToWord(h.to) == LittleEndian(s[..4]) && ToWord(h.from) == LittleEndian(s[4..8])
            && h.length == LittleEndian(s[8..])
  {
    hide LittleEndian, DecodeWord;
    DecodedIsLittleEndian(s[..4]);
    DecodedIsLittleEndian(s[4..8]);
    DecodedIsLittleEndian(s[8..]);
    assert s[4 * 0..4 * 0 + 4] == s[..4] && s[4 * 1..4 * 1 + 4] == s[4..8] && s[4 * 2..4 * 2 + 4] == s[8..];
  }

  /** A message as its sender hands it to Send. */
  datatype MessageData = Message(hdr: Header, data: seq<Byte>)

  type Message = m: MessageData | m.hdr.length <= 40 && |m.data| == m.hdr.length witness Message(Header(0, 0, 0), [])

  /** The bytes on the wire: packet header, mail header, data, and `pad` bytes of whatever was in memory. */
  function Wire(pkt: Header, m: Message, pad: seq<Byte>): (s: seq<Byte>)
    requires |pad| == 40 - |m.data|
    ensures |s| == 64
  {
    EncodeHeader(pkt) + (EncodeHeader(m.hdr) + m.data) + pad
  }

  type Host = nat

  /** Which message of which sender something is: history, not part of the bytes. */
  datatype Tag = Tag(src: Host, number: nat)

  datatype Packet = Packet(bytes: seq<Byte>, tag: Tag)

  datatype Mail = Mail(pktHdr: Header, mailHdr: Header, data: seq<Byte>, tag: Tag)

  /** The postal worker: in the P, past it, or with a received packet in its buffer. */
  datatype Worker = AtP(asleep: bool) | Woken | Got(hdr: Header, buffer: seq<Byte>, tag: Tag)

  /** A message as it was sent, and whether the network drops it. */
  datatype Letter = Letter(pkt: Header, m: Message, lost: bool)

  /** What each machine has sent here, and the packets still on their way from it. */
  datatype Net = Net(sent: map<Host, seq<Letter>>, wire: map<Host, seq<Packet>>)

  /** The network input device, the semaphore messageAvailable and the postal worker. `polled`: the tags of
      all packets ever taken off the network. */
  datatype Rx = Rx(inHdr: Header, inbox: seq<Byte>, inTag: Tag, available: nat, worker: Worker, polled: seq<Tag>)

  /** The mailboxes, the mail taken out of each, and all mail ever put into any. */
  datatype Post = Post(boxes: map<int, seq<Mail>>, taken: map<int, seq<Mail>>, delivered: seq<Mail>)

  /** The machine `me` with its `numBoxes` mailboxes, and everybody's mail to it. */
  datatype State = State(me: Int32, numBoxes: nat, net: Net, rx: Rx, post: Post, fault: bool)

  datatype Step =
    | Send(src: Host, m: Message, pkt: Header, pad: seq<Byte>, lost: bool)
    | Poll(src: Host)
    | WorkerP | WorkerReceive | WorkerPut
    | Take(box: int)

  /** A sender has the receiver's address right and addresses a mailbox that exists there; Send itself checks
      only the length, and the receiver asserts the rest. */
  predicate Enabled(s: State, step: Step) {
    match step
    case Send(src, m, pkt, pad, _) =>
      && src in s.net.sent && src in s.net.wire && |pad| == 40 - |m.data|
      && pkt.to == s.me && pkt.length == m.hdr.length + 12
      && 0 <= m.hdr.to < s.numBoxes
    case Poll(src) => src in s.net.wire
    case WorkerP => s.rx.worker == AtP(false)
    case WorkerReceive => s.rx.worker.Woken?
    case WorkerPut => s.rx.worker.Got? && |s.rx.worker.buffer| == 52
    case Take(b) => b in s.post.boxes && b in s.post.taken && s.post.boxes[b] != []
  }

  /** PostOfficeOutput::Send and NetworkOutput::Send, which may lose the packet. */
  function DoSend(net: Net, src: Host, m: Message, pkt: Header, pad: seq<Byte>, lost: bool): Net
    requires src in net.sent && src in net.wire && |pad| == 40 - |m.data|
  {
    var packet := Packet(Wire(pkt, m, pad), Tag(src, |net.sent[src]|));
    Net(net.sent[src := net.sent[src] + [Letter(pkt, m, lost)]],
        if lost then net.wire else net.wire[src := net.wire[src] + [packet]])
  }

  /** NetworkInput::CallBack with a packet: split it into header and data, and V messageAvailable. */
  function Arrive(rx: Rx, p: Packet): Rx
    requires |p.bytes| == 64 && |rx.inbox| == 52 && DecodeHeader(p.bytes[..12]).length <= 52
  {
    var hdr := DecodeHeader(p.bytes[..12]);
    rx.(inHdr := hdr, inbox := p.bytes[12..12 + hdr.length] + rx.inbox[hdr.length..], inTag := p.tag,
        polled := rx.polled + [p.tag], available := rx.available + 1,
        worker := if rx.worker.AtP? then AtP(false) else rx.worker)
  }

  /** MailBox::Put of the packet in the worker's buffer. */
  function Put(post: Post, hdr: Header, buffer: seq<Byte>, tag: Tag): Post
    requires |buffer| == 52 && DecodeHeader(buffer[..12]).length <= 40 && DecodeHeader(buffer[..12]).to in post.boxes
  {
    var mailHdr := DecodeHeader(buffer[..12]);
    var mail := Mail(hdr, mailHdr, buffer[12..12 + mailHdr.length], tag);
    post.(boxes := post.boxes[mailHdr.to := post.boxes[mailHdr.to] + [mail]], delivered := post.delivered + [mail])
  }

  function Apply(s: State, step: Step): State
    requires Enabled(s, step)
  {
    match step
    case Send(src, m, pkt, pad, lost) => s.(net := DoSend(s.net, src, m, pkt, pad, lost))
    case Poll(src) =>
      var queue := s.net.wire[src];
      if s.rx.inHdr.length != 0 || queue == [] then s
      else if |queue[0].bytes| != 64 || |s.rx.inbox| != 52 then s.(fault := true)
      else
        var hdr := DecodeHeader(queue[0].bytes[..12]);
        if hdr.to != s.me || hdr.length > 52 then s.(fault := true)
        else s.(net := s.net.(wire := s.net.wire[src := queue[1..]]), rx := Arrive(s.rx, queue[0]))
    case WorkerP =>
      s.(rx := if s.rx.available == 0 then s.rx.(worker := AtP(true))
               else s.rx.(available := s.rx.available - 1, worker := Woken))
    case WorkerReceive =>
      // NetworkInput::Receive: there must be a packet, or the worker would deliver a stale buffer.
      if s.rx.inHdr.length == 0 then s.(fault := true)
      else s.(rx := s.rx.(inHdr := s.rx.inHdr.(length := 0), worker := Got(s.rx.inHdr, s.rx.inbox, s.rx.inTag)))
    case WorkerPut =>
      var hdr := DecodeHeader(s.rx.worker.buffer[..12]);
      if !(0 <= hdr.to < s.numBoxes) || hdr.length > 40 || hdr.to !in s.post.boxes then s.(fault := true)
      else
        s.(post := Put(s.post, s.rx.worker.hdr, s.rx.worker.buffer, s.rx.worker.tag), rx := s.rx.(worker := AtP(false)))
    case Take(b) =>
      var box := s.post.boxes[b];
      s.(post := s.post.(boxes := s.post.boxes[b := box[1..]], taken := s.post.taken[b := s.post.taken[b] + [box[0]]]))
  }

  ghost predicate Init(s: State) {
    && !s.fault
    && s.net.sent.Keys == s.net.wire.Keys
    && (forall src :: src in s.net.sent ==> s.net.sent[src] == [] && s.net.wire[src] == [])
    && s.rx.inHdr.length == 0 && |s.rx.inbox| == 52 && s.rx.available == 0 && s.rx.worker == AtP(false)
    && s.rx.polled == []
    && s.post.boxes.Keys == s.post.taken.Keys && s.post.delivered == []
    && (forall b :: b in s.post.boxes <==> 0 <= b < s.numBoxes)
    && (forall b :: b in s.post.boxes ==> s.post.boxes[b] == [] && s.post.taken[b] == [])
  }

  // ----- The bytes -----

  /** The payload of a packet is the mail header and the data of message `m`. */
  ghost predicate Carries(payload: seq<Byte>, m: Message) {
    && |payload| >= 12 + |m.data|
    && DecodeHeader(payload[..12]) == m.hdr
    && payload[12..12 + |m.data|] == m.data
  }

  ghost predicate IsWireOf(bytes: seq<Byte>, pkt: Header, m: Message) {
    && |bytes| == 64
    && DecodeHeader(bytes[..12]) == pkt
    && Carries(bytes[12..], m)
  }

  lemma WireIsWire(pkt: Header, m: Message, pad: seq<Byte>)
    requires |pad| == 40 - |m.data|
    ensures IsWireOf(Wire(pkt, m, pad), pkt, m)
  {
    hide EncodeHeader, DecodeHeader;
    var s := Wire(pkt, m, pad);
    assert s[..12] == EncodeHeader(pkt);
    assert s[12..][..12] == EncodeHeader(m.hdr);
    assert s[12..][12..12 + |m.data|] == m.data;
    HeaderRoundTrip(pkt);
    HeaderRoundTrip(m.hdr);
  }

  /** The stale bytes behind a packet in the inbox do not matter. */
  lemma InboxCarries(bytes: seq<Byte>, inbox: seq<Byte>, pkt: Header, m: Message)
    requires IsWireOf(bytes, pkt, m) && pkt.length == m.hdr.length + 12 && |inbox| == 52
    ensures var n := DecodeHeader(bytes[..12]).length;
            n <= 52 && |bytes[12..12 + n] + inbox[n..]| == 52 && Carries(bytes[12..12 + n] + inbox[n..], m)
  {
    hide DecodeHeader;
    var n := m.hdr.length + 12;
    var s := bytes[12..12 + n] + inbox[n..];
    assert s[..12] == bytes[12..][..12];
    assert s[12..12 + |m.data|] == bytes[12..][12..12 + |m.data|];
  }

  // ----- The invariant -----

  ghost predicate Known(net: Net, tag: Tag) {
    tag.src in net.sent && tag.number < |net.sent[tag.src]|
  }

  ghost function LetterOf(net: Net, tag: Tag): Letter
    requires Known(net, tag)
  {
    net.sent[tag.src][tag.number]
  }

  ghost predicate PacketOk(net: Net, src: Host, p: Packet) {
    p.tag.src == src && Known(net, p.tag) && IsWireOf(p.bytes, LetterOf(net, p.tag).pkt, LetterOf(net, p.tag).m)
  }

  ghost predicate LetterOk(me: Int32, numBoxes: nat, l: Letter) {
    l.pkt.to == me && l.pkt.length == l.m.hdr.length + 12 && 0 <= l.m.hdr.to < numBoxes
  }

  ghost predicate NetOk(net: Net, me: Int32, numBoxes: nat) {
    && net.sent.Keys == net.wire.Keys
    && (forall src, n :: src in net.sent && 0 <= n < |net.sent[src]| ==> LetterOk(me, numBoxes, net.sent[src][n]))
    && (forall src, i :: src in net.wire && 0 <= i < |net.wire[src]| ==> PacketOk(net, src, net.wire[src][i]))
    && (forall src, i, j :: src in net.wire && 0 <= i < j < |net.wire[src]| ==>
          net.wire[src][i].tag.number < net.wire[src][j].tag.number)
  }

  /** The packet header and the payload of a letter. */
  ghost predicate Holds(hdr: Header, payload: seq<Byte>, l: Letter) {
    hdr == l.pkt && Carries(payload, l.m)
  }

  ghost predicate Buffered(rx: Rx) {
    rx.inHdr.length != 0
  }

  /** The semaphore counts the packet in the inbox until the worker has been woken for it. */
  ghost predicate RxOk(net: Net, rx: Rx) {
    && |rx.inbox| == 52
    && rx.available + (if rx.worker.Woken? then 1 else 0) == (if Buffered(rx) then 1 else 0)
    && (rx.worker == AtP(true) ==> rx.available == 0)
    && (Buffered(rx) ==> Known(net, rx.inTag) && Holds(rx.inHdr, rx.inbox, LetterOf(net, rx.inTag)))
    && (rx.worker.Got? ==> && |rx.worker.buffer| == 52 && Known(net, rx.worker.tag)
                           && Holds(rx.worker.hdr, rx.worker.buffer, LetterOf(net, rx.worker.tag)))
  }

  function Tags(mail: seq<Mail>): (ts: seq<Tag>)
    ensures |ts| == |mail|
  {
    seq(|mail|, i requires 0 <= i < |mail| => mail[i].tag)
  }

  /** The packets taken off the network and not yet put into a box, oldest first. */
  function InTransit(rx: Rx): seq<Tag> {
    (if rx.worker.Got? then [rx.worker.tag] else []) + (if rx.inHdr.length != 0 then [rx.inTag] else [])
  }

  /** Per sender, packets come off the network in the order in which they were sent. */
  ghost predicate OrderOk(net: Net, polled: seq<Tag>) {
    && (forall i :: 0 <= i < |polled| ==> Known(net, polled[i]))
    && (forall i, j :: 0 <= i < j < |polled| && polled[i].src == polled[j].src ==> polled[i].number < polled[j].number)
    && (forall i, k :: 0 <= i < |polled| && polled[i].src in net.wire && 0 <= k < |net.wire[polled[i].src]| ==>
          polled[i].number < net.wire[polled[i].src][k].tag.number)
  }

  function ToBox(mail: seq<Mail>, b: int): seq<Mail> {
    if mail == [] then []
    else ToBox(mail[..|mail| - 1], b) + if mail[|mail| - 1].mailHdr.to == b then [mail[|mail| - 1]] else []
  }

  /** The mail is the letter: packet header, mail header and data. */
  ghost predicate IsLetter(mail: Mail, l: Letter) {
    mail.pktHdr == l.pkt && l.m == Message(mail.mailHdr, mail.data)
  }

  ghost predicate MailOk(net: Net, mail: Mail) {
    Known(net, mail.tag) && IsLetter(mail, LetterOf(net, mail.tag))
  }

  ghost predicate PostOk(net: Net, post: Post, numBoxes: nat) {
    && post.boxes.Keys == post.taken.Keys
    && (forall b :: b in post.boxes <==> 0 <= b < numBoxes)
    && (forall b :: b in post.boxes ==> post.taken[b] + post.boxes[b] == ToBox(post.delivered, b))
    && (forall i :: 0 <= i < |post.delivered| ==> MailOk(net, post.delivered[i]))
  }

  ghost predicate Inv(s: State) {
    && !s.fault
    && NetOk(s.net, s.me, s.numBoxes) && RxOk(s.net, s.rx)
    && OrderOk(s.net, s.rx.polled) && PostOk(s.net, s.post, s.numBoxes)
    && s.rx.polled == Tags(s.post.delivered) + InTransit(s.rx)
  }

  lemma InitOk(s: State)
    requires Init(s)
    ensures Inv(s)
  {
  }

  // ----- Each step keeps the invariant -----

  /** What has been sent stays sent. */
  lemma SentGrows(net: Net, net': Net, src: Host, l: Letter)
    requires src in net.sent && net'.sent == net.sent[src := net.sent[src] + [l]]
    ensures forall tag :: Known(net, tag) ==> Known(net', tag) && LetterOf(net', tag) == LetterOf(net, tag)
  {
  }

  lemma SendNet(net: Net, me: Int32, numBoxes: nat, polled: seq<Tag>, src: Host, m: Message, pkt: Header,
                pad: seq<Byte>, lost: bool)
    requires NetOk(net, me, numBoxes) && OrderOk(net, polled)
    requires src in net.sent && src in net.wire && |pad| == 40 - |m.data|
    requires pkt.to == me && pkt.length == m.hdr.length + 12 && 0 <= m.hdr.to < numBoxes
    ensures var net' := DoSend(net, src, m, pkt, pad, lost); NetOk(net', me, numBoxes) && OrderOk(net', polled)
  {
    hide IsWireOf, Wire;
    var net' := DoSend(net, src, m, pkt, pad, lost);
    SentGrows(net, net', src, Letter(pkt, m, lost));
    WireIsWire(pkt, m, pad);
    assert forall i :: 0 <= i < |net.wire[src]| ==> PacketOk(net, src, net.wire[src][i]);
    forall o, i | o in net'.wire && 0 <= i < |net'.wire[o]|
      ensures PacketOk(net', o, net'.wire[o][i])
    {
      if o != src || i < |net.wire[o]| {
        assert PacketOk(net, o, net.wire[o][i]);
      }
    }
  }

  lemma SendOk(s: State, step: Step)
    requires Inv(s) && Enabled(s, step) && step.Send?
    ensures Inv(Apply(s, step))
  {
    hide Carries, IsWireOf, NetOk, OrderOk, ToBox;
    SendNet(s.net, s.me, s.numBoxes, s.rx.polled, step.src, step.m, step.pkt, step.pad, step.lost);
    SentGrows(s.net, Apply(s, step).net, step.src, Letter(step.pkt, step.m, step.lost));
    hide Known;
  }

  /** Taking the first packet of a sender off the wire. */
  lemma PollNet(net: Net, me: Int32, numBoxes: nat, src: Host)
    requires NetOk(net, me, numBoxes) && src in net.wire && net.wire[src] != []
    ensures NetOk(net.(wire := net.wire[src := net.wire[src][1..]]), me, numBoxes)
  {
    hide IsWireOf, LetterOk;
    var queue := net.wire[src];
    var net' := net.(wire := net.wire[src := queue[1..]]);
    assert forall i :: 0 <= i < |queue| - 1 ==> net'.wire[src][i] == queue[i + 1];
    forall o, i | o in net'.wire && 0 <= i < |net'.wire[o]|
      ensures PacketOk(net', o, net'.wire[o][i])
    {
      assert PacketOk(net, o, net.wire[o][if o == src then i + 1 else i]);
    }
  }

  /** No earlier packet of its sender is still to come. */
  lemma PollOrder(net: Net, me: Int32, numBoxes: nat, polled: seq<Tag>, src: Host)
    requires NetOk(net, me, numBoxes) && OrderOk(net, polled) && src in net.wire && net.wire[src] != []
    ensures OrderOk(net.(wire := net.wire[src := net.wire[src][1..]]), polled + [net.wire[src][0].tag])
  {
    hide IsWireOf, LetterOk;
    assert PacketOk(net, src, net.wire[src][0]);
  }

  /** A packet that arrives is split without loss, and no earlier packet of its sender is still to come. */
  lemma PollOk(s: State, src: Host)
    requires Inv(s) && Enabled(s, Poll(src))
    ensures Inv(Apply(s, Poll(src)))
  {
    hide OrderOk, ToBox, DecodeHeader, Carries;
    var queue := s.net.wire[src];
    if !Buffered(s.rx) && queue != [] {
      assert PacketOk(s.net, src, queue[0]);
      var l := LetterOf(s.net, queue[0].tag);
      assert LetterOk(s.me, s.numBoxes, l);
      InboxCarries(queue[0].bytes, s.rx.inbox, l.pkt, l.m);
      PollNet(s.net, s.me, s.numBoxes, src);
      PollOrder(s.net, s.me, s.numBoxes, s.rx.polled, src);
      hide NetOk;
      var s' := Apply(s, Poll(src));
      assert InTransit(s'.rx) == InTransit(s.rx) + [queue[0].tag];
      assert s'.rx.polled == Tags(s'.post.delivered) + InTransit(s'.rx);
    }
  }

  lemma WorkerPOk(s: State)
    requires Inv(s) && Enabled(s, WorkerP)
    ensures Inv(Apply(s, WorkerP))
  {
  }

  /** The worker wakes only when a packet is buffered. */
  lemma WorkerReceiveOk(s: State)
    requires Inv(s) && Enabled(s, WorkerReceive)
    ensures Buffered(s.rx) && Inv(Apply(s, WorkerReceive))
  {
  }

  lemma PutOk(net: Net, post: Post, numBoxes: nat, hdr: Header, buffer: seq<Byte>, tag: Tag)
    requires PostOk(net, post, numBoxes) && |buffer| == 52 && Known(net, tag) && Holds(hdr, buffer, LetterOf(net, tag))
    requires 0 <= LetterOf(net, tag).m.hdr.to < numBoxes
    ensures DecodeHeader(buffer[..12]).to in post.boxes && DecodeHeader(buffer[..12]).length <= 40
    ensures PostOk(net, Put(post, hdr, buffer, tag), numBoxes)
    ensures Tags(Put(post, hdr, buffer, tag).delivered) == Tags(post.delivered) + [tag]
  {
    hide DecodeHeader;
    var post' := Put(post, hdr, buffer, tag);
    var mail := post'.delivered[|post.delivered|];
    assert post'.delivered[..|post'.delivered| - 1] == post.delivered;
    assert MailOk(net, mail);
    forall b | b in post'.boxes
      ensures post'.taken[b] + post'.boxes[b] == ToBox(post'.delivered, b)
    {
      assert ToBox(post'.delivered, b) == ToBox(post.delivered, b) + if mail.mailHdr.to == b then [mail] else [];
    }
  }

  lemma WorkerPutOk(s: State)
    requires Inv(s) && Enabled(s, WorkerPut)
    ensures Inv(Apply(s, WorkerPut))
  {
    hide DecodeHeader, OrderOk, PostOk, PacketOk;
    var w := s.rx.worker;
    var s' := Apply(s, WorkerPut);
    assert LetterOk(s.me, s.numBoxes, LetterOf(s.net, w.tag));
    PutOk(s.net, s.post, s.numBoxes, w.hdr, w.buffer, w.tag);
    hide NetOk;
    assert InTransit(s.rx) == [w.tag] + InTransit(s'.rx);
    assert s'.rx.polled == Tags(s'.post.delivered) + InTransit(s'.rx);
  }

  lemma TakeOk(s: State, b: int)
    requires Inv(s) && Enabled(s, Take(b))
    ensures Inv(Apply(s, Take(b)))
  {
    hide NetOk, RxOk, OrderOk, ToBox, DecodeHeader;
    var s' := Apply(s, Take(b));
    assert s'.post.taken[b] + s'.post.boxes[b] == s.post.taken[b] + s.post.boxes[b];
  }

  lemma StepOk(s: State, step: Step)
    requires Inv(s) && Enabled(s, step)
    ensures Inv(Apply(s, step))
  {
    hide Inv, Apply;
    match step
    case Send(_, _, _, _, _) => SendOk(s, step);
    case Poll(src) => PollOk(s, src);
    case WorkerP => WorkerPOk(s);
    case WorkerReceive => WorkerReceiveOk(s);
    case WorkerPut => WorkerPutOk(s);
    case Take(b) => TakeOk(s, b);
  }

  // ----- Whole runs -----

  ghost predicate Trace(ss: seq<State>, steps: seq<Step>) {
    && |ss| == |steps| + 1 && Init(ss[0])
    && forall i :: 0 <= i < |steps| ==> Enabled(ss[i], steps[i]) && ss[i + 1] == Apply(ss[i], steps[i])
  }

  lemma {:induction false} TraceOk(ss: seq<State>, steps: seq<Step>, n: nat)
    requires Trace(ss, steps) && n <= |steps|
    ensures Inv(ss[n])
  {
    hide Inv, Apply, Enabled, Init;
    if n == 0 {
      InitOk(ss[0]);
    } else {
      TraceOk(ss, steps, n - 1);
      StepOk(ss[n - 1], steps[n - 1]);
    }
  }

  // ----- What each step does -----

  /** Every step moves one letter one place on, or nothing: from its sender onto the wire, unless it is lost; off the
      wire into the inbox, if that is free; to the worker; into the box it is addressed to; out to a receiver.  Each
      place is first in, first out. */
  ghost predicate StepMoves(s: State, step: Step, s': State) {
    s'.me == s.me && s'.numBoxes == s.numBoxes &&
    match step
    case Send(src, m, pkt, pad, lost) =>
      && s'.rx == s.rx && s'.post == s.post && src in s.net.sent && src in s.net.wire
      && s'.net.sent == s.net.sent[src := s.net.sent[src] + [Letter(pkt, m, lost)]]
      && src in s'.net.wire && s'.net.wire == s.net.wire[src := s'.net.wire[src]]
      && Numbers(s'.net.wire[src]) == Numbers(s.net.wire[src]) + if lost then [] else [|s.net.sent[src]|]
    case Poll(src) =>
      && s'.post == s.post && s'.net.sent == s.net.sent && src in s.net.wire
      && if Buffered(s.rx) || s.net.wire[src] == [] then s' == s
         else
           && s'.net.wire == s.net.wire[src := s.net.wire[src][1..]]
           && InTransit(s'.rx) == InTransit(s.rx) + [s.net.wire[src][0].tag] && Buffered(s'.rx)
           && s'.rx.worker == if s.rx.worker.AtP? then AtP(false) else s.rx.worker
    case WorkerP =>
      && s'.post == s.post && s'.net == s.net
      && InTransit(s'.rx) == InTransit(s.rx) && Buffered(s'.rx) == Buffered(s.rx)
      && s'.rx.worker == if Buffered(s.rx) then Woken else AtP(true)
    case WorkerReceive =>
      && s'.post == s.post && s'.net == s.net && Buffered(s.rx) && !Buffered(s'.rx)
      && s'.rx.worker.Got? && InTransit(s'.rx) == InTransit(s.rx)
    case WorkerPut =>
      && s'.net == s.net && InTransit(s.rx) != [] && InTransit(s'.rx) == InTransit(s.rx)[1..]
      && Buffered(s'.rx) == Buffered(s.rx) && s'.rx.worker == AtP(false)
      && |s'.post.delivered| == |s.post.delivered| + 1
      && var mail := s'.post.delivered[|s.post.delivered|];
      && mail.tag == InTransit(s.rx)[0] && MailOk(s.net, mail) && mail.mailHdr.to in s.post.boxes
      && s'.post == s.post.(boxes := s.post.boxes[mail.mailHdr.to := s.post.boxes[mail.mailHdr.to] + [mail]],
                            delivered := s.post.delivered + [mail])
    case Take(b) =>
      && s'.net == s.net && s'.rx == s.rx && s'.post.delivered == s.post.delivered
      && b in s.post.boxes && b in s'.post.boxes && b in s.post.taken && s.post.boxes[b] != []
      && s.post.boxes[b] == [s.post.boxes[b][0]] + s'.post.boxes[b]
      && s'.post.boxes == s.post.boxes[b := s'.post.boxes[b]]
      && s'.post.taken == s.post.taken[b := s.post.taken[b] + [s.post.boxes[b][0]]]
  }

  lemma SendMoves(s: State, step: Step)
    requires Inv(s) && Enabled(s, step) && step.Send?
    ensures StepMoves(s, step, Apply(s, step))
  {
    hide Inv, Wire;
    var src := step.src;
    assert s.net.wire[src := s.net.wire[src]] == s.net.wire;
  }

  lemma PollMoves(s: State, src: Host)
    requires Inv(s) && Enabled(s, Poll(src))
    ensures StepMoves(s, Poll(src), Apply(s, Poll(src)))
  {
    hide OrderOk, PostOk, DecodeHeader, Carries;
    var queue := s.net.wire[src];
    if !Buffered(s.rx) && queue != [] {
      assert PacketOk(s.net, src, queue[0]);
      assert LetterOk(s.me, s.numBoxes, LetterOf(s.net, queue[0].tag));
    }
  }

  lemma WorkerMoves(s: State, step: Step)
    requires Inv(s) && Enabled(s, step) && (step.WorkerP? || step.WorkerReceive?)
    ensures StepMoves(s, step, Apply(s, step))
  {
    hide NetOk, OrderOk, PostOk, Holds;
  }

  lemma PutMoves(s: State)
    requires Inv(s) && Enabled(s, WorkerPut)
    ensures StepMoves(s, WorkerPut, Apply(s, WorkerPut))
  {
    hide DecodeHeader, OrderOk, PacketOk, ToBox;
    var w := s.rx.worker;
    assert LetterOk(s.me, s.numBoxes, LetterOf(s.net, w.tag));
    PutOk(s.net, s.post, s.numBoxes, w.hdr, w.buffer, w.tag);
    assert InTransit(s.rx) == [w.tag] + InTransit(Apply(s, WorkerPut).rx);
  }

  lemma TakeMoves(s: State, b: int)
    requires Inv(s) && Enabled(s, Take(b))
    ensures StepMoves(s, Take(b), Apply(s, Take(b)))
  {
    hide Inv;
  }

  /** Each step of the code moves letters in just this way. */
  lemma StepRefines(s: State, step: Step)
    requires Inv(s) && Enabled(s, step)
    ensures StepMoves(s, step, Apply(s, step))
  {
    hide Inv, Apply, StepMoves;
    match step
    case Send(_, _, _, _, _) => SendMoves(s, step);
    case Poll(src) => PollMoves(s, src);
    case WorkerP => WorkerMoves(s, step);
    case WorkerReceive => WorkerMoves(s, step);
    case WorkerPut => PutMoves(s);
    case Take(b) => TakeMoves(s, b);
  }

  /** No packet waits in the inbox for a worker that sleeps; a worker that does not sleep can always go on. */
  lemma NoLostWakeup(s: State)
    requires Inv(s)
    ensures Buffered(s.rx) ==> s.rx.worker != AtP(true)
    ensures s.rx.worker != AtP(true) <==> Enabled(s, WorkerP) || Enabled(s, WorkerReceive) || Enabled(s, WorkerPut)
    ensures forall src :: src in s.net.sent ==> Enabled(s, Poll(src))
    ensures forall b :: 0 <= b < s.numBoxes ==> (Enabled(s, Take(b)) <==> s.post.boxes[b] != [])
  {
  }

  // ----- Histories, read off the steps -----

  /** What `src` has sent by the first `n` steps. */
  function Letters(steps: seq<Step>, src: Host, n: nat): seq<Letter>
    requires n <= |steps|
  {
    if n == 0 then []
    else Letters(steps, src, n - 1) +
         match steps[n - 1]
         case Send(o, m, pkt, _, lost) => if o == src then [Letter(pkt, m, lost)] else []
         case _ => []
  }

  /** What has been taken out of box `b` by the first `n` steps. */
  function Taken(ss: seq<State>, steps: seq<Step>, b: int, n: nat): seq<Mail>
    requires n <= |steps| < |ss|
  {
    if n == 0 then []
    else
      var box := if b in ss[n - 1].post.boxes then ss[n - 1].post.boxes[b] else [];
      Taken(ss, steps, b, n - 1) + if steps[n - 1] == Take(b) && box != [] then [box[0]] else []
  }

  lemma TraceStep(ss: seq<State>, steps: seq<Step>, i: nat)
    requires Trace(ss, steps) && i < |steps|
    ensures Inv(ss[i]) && Inv(ss[i + 1]) && StepMoves(ss[i], steps[i], ss[i + 1])
  {
    hide Inv, Apply, Enabled, StepMoves, Init;
    TraceOk(ss, steps, i);
    TraceOk(ss, steps, i + 1);
    StepRefines(ss[i], steps[i]);
  }

  lemma {:induction false} SentIsSteps(ss: seq<State>, steps: seq<Step>, src: Host, n: nat)
    requires Trace(ss, steps) && n <= |steps| && src in ss[0].net.sent
    ensures src in ss[n].net.sent && src in ss[n].net.wire && ss[n].net.sent[src] == Letters(steps, src, n)
  {
    hide Inv, Apply, Enabled;
    if n > 0 {
      SentIsSteps(ss, steps, src, n - 1);
      TraceStep(ss, steps, n - 1);
    }
  }

  lemma {:induction false} TakenIsSteps(ss: seq<State>, steps: seq<Step>, b: int, n: nat)
    requires Trace(ss, steps) && n <= |steps| && b in ss[0].post.taken
    ensures b in ss[n].post.taken && b in ss[n].post.boxes && ss[n].post.taken[b] == Taken(ss, steps, b, n)
  {
    hide Inv, Apply, Enabled;
    if n > 0 {
      TakenIsSteps(ss, steps, b, n - 1);
      TraceStep(ss, steps, n - 1);
    }
  }

  // ----- Nothing is lost but what the network drops -----

  function Numbers(wire: seq<Packet>): (ns: seq<nat>)
    ensures |ns| == |wire|
  {
    seq(|wire|, i requires 0 <= i < |wire| => wire[i].tag.number)
  }

  /** The numbers of the letters that are not lost. */
  function Survivors(ls: seq<Letter>): seq<nat> {
    if ls == [] then []
    else Survivors(ls[..|ls| - 1]) + if ls[|ls| - 1].lost then [] else [|ls| - 1]
  }

  /** Those of the tags that are of `src`. */
  function From(tags: seq<Tag>, src: Host): seq<nat> {
    if tags == [] then []
    else From(tags[..|tags| - 1], src) + if tags[|tags| - 1].src == src then [tags[|tags| - 1].number] else []
  }

  lemma {:induction false} FromBoth(a: seq<Tag>, b: seq<Tag>, src: Host)
    ensures From(a + b, src) == From(a, src) + From(b, src)
    decreases |b|
  {
    if b == [] {
      assert a + b == a;
    } else {
      FromBoth(a, b[..|b| - 1], src);
      assert (a + b)[..|a + b| - 1] == a + b[..|b| - 1];
    }
  }

  ghost predicate Conserved(s: State, src: Host)
    requires src in s.net.sent && src in s.net.wire
  {
    From(Tags(s.post.delivered), src) + From(InTransit(s.rx), src) + Numbers(s.net.wire[src])
      == Survivors(s.net.sent[src])
  }

  lemma SendConserves(s: State, step: Step, s': State, src: Host)
    requires StepMoves(s, step, s') && step.Send? && src in s.net.sent && src in s.net.wire && Conserved(s, src)
    ensures src in s'.net.sent && src in s'.net.wire && Conserved(s', src)
  {
    hide From, Tags, InTransit, Numbers;
    if step.src == src {
      assert s'.net.sent[src][..|s.net.sent[src]|] == s.net.sent[src];
    }
  }

  lemma PollConserves(s: State, o: Host, s': State, src: Host)
    requires Inv(s) && StepMoves(s, Poll(o), s') && src in s.net.sent && src in s.net.wire && Conserved(s, src)
    ensures src in s'.net.sent && src in s'.net.wire && Conserved(s', src)
  {
    hide Survivors, Tags, InTransit, From, PostOk, RxOk, OrderOk, IsWireOf, LetterOk;
    if !Buffered(s.rx) && s.net.wire[o] != [] {
      var first := s.net.wire[o][0];
      assert PacketOk(s.net, o, first);
      FromBoth(InTransit(s.rx), [first.tag], src);
      FromOne(first.tag, src);
      if o == src {
        assert Numbers(s.net.wire[o]) == [first.tag.number] + Numbers(s'.net.wire[o]);
      }
    }
  }

  lemma FromOne(tag: Tag, src: Host)
    ensures From([tag], src) == if tag.src == src then [tag.number] else []
  {
    assert [tag][..0] == [];
  }

  lemma PutConserves(s: State, s': State, src: Host)
    requires StepMoves(s, WorkerPut, s') && src in s.net.sent && src in s.net.wire && Conserved(s, src)
    ensures src in s'.net.sent && src in s'.net.wire && Conserved(s', src)
  {
    hide Survivors, InTransit, From, Numbers;
    var tag := InTransit(s.rx)[0];
    assert Tags(s'.post.delivered) == Tags(s.post.delivered) + [tag];
    assert InTransit(s.rx) == [tag] + InTransit(s'.rx);
    FromBoth(Tags(s.post.delivered), [tag], src);
    FromBoth([tag], InTransit(s'.rx), src);
  }

  lemma StepConserves(s: State, step: Step, s': State, src: Host)
    requires Inv(s) && StepMoves(s, step, s') && src in s.net.sent && src in s.net.wire && Conserved(s, src)
    ensures src in s'.net.sent && src in s'.net.wire && Conserved(s', src)
  {
    hide Inv, InTransit;
    match step
    case Send(_, _, _, _, _) => SendConserves(s, step, s', src);
    case Poll(o) => PollConserves(s, o, s', src);
    case WorkerPut => PutConserves(s, s', src);
    case _ =>
  }

  /** In every run, of what a machine has sent, all that the network does not drop is delivered, in the hands of the
      receiver, or on the wire: each letter in one of these places, once, and in the order in which it was sent. */
  lemma {:induction false} NothingElseLost(ss: seq<State>, steps: seq<Step>, src: Host, n: nat)
    requires Trace(ss, steps) && n <= |steps| && src in ss[0].net.sent
    ensures src in ss[n].net.wire
    ensures From(Tags(ss[n].post.delivered), src) + From(InTransit(ss[n].rx), src) + Numbers(ss[n].net.wire[src])
         == Survivors(Letters(steps, src, n))
  {
    hide Inv, Apply, Enabled, StepMoves, Letters;
    SentIsSteps(ss, steps, src, n);
    ConservedBy(ss, steps, src, n);
  }

  lemma {:induction false} ConservedBy(ss: seq<State>, steps: seq<Step>, src: Host, n: nat)
    requires Trace(ss, steps) && n <= |steps| && src in ss[0].net.sent
    ensures src in ss[n].net.sent && src in ss[n].net.wire && Conserved(ss[n], src)
  {
    hide Inv, Apply, Enabled, StepMoves;
    if n == 0 {
      assert Tags(ss[0].post.delivered) == [] && InTransit(ss[0].rx) == [];
    } else {
      hide Conserved;
      ConservedBy(ss, steps, src, n - 1);
      TraceStep(ss, steps, n - 1);
      StepConserves(ss[n - 1], steps[n - 1], ss[n], src);
    }
  }

  // ----- Mail is faithful -----

  /** Mail taken out of box `b`: every piece is, unchanged, a letter that its sender sent to this box, and the pieces of
      one sender come in the order in which they were sent, none of them twice. */
  ghost predicate IsFaithful(net: Net, b: int, mail: seq<Mail>) {
    && (forall i :: 0 <= i < |mail| ==> MailOk(net, mail[i]) && mail[i].mailHdr.to == b)
    && (forall i, j :: 0 <= i < j < |mail| && mail[i].tag.src == mail[j].tag.src ==>
          mail[i].tag.number < mail[j].tag.number)
  }

  lemma {:induction false} ToBoxFaithful(net: Net, b: int, mail: seq<Mail>)
    requires forall i :: 0 <= i < |mail| ==> MailOk(net, mail[i])
    requires forall i, j :: 0 <= i < j < |mail| && mail[i].tag.src == mail[j].tag.src ==>
               mail[i].tag.number < mail[j].tag.number
    ensures IsFaithful(net, b, ToBox(mail, b))
    ensures forall i :: 0 <= i < |ToBox(mail, b)| ==> ToBox(mail, b)[i] in mail
    decreases |mail|
  {
    hide MailOk;
    if mail != [] {
      var rest := mail[..|mail| - 1];
      ToBoxFaithful(net, b, rest);
      assert forall x :: x in rest ==> exists k :: 0 <= k < |mail| - 1 && mail[k] == x;
    }
  }

  lemma BoxIsFaithful(s: State, b: int)
    requires Inv(s) && b in s.post.taken
    ensures IsFaithful(s.net, b, s.post.taken[b])
  {
    hide ToBox, MailOk, NetOk, RxOk;
    var mail := s.post.delivered;
    forall i, j | 0 <= i < j < |mail| && mail[i].tag.src == mail[j].tag.src
      ensures mail[i].tag.number < mail[j].tag.number
    {
      assert s.rx.polled[i] == mail[i].tag && s.rx.polled[j] == mail[j].tag;
    }
    ToBoxFaithful(s.net, b, mail);
    assert s.post.taken[b] + s.post.boxes[b] == ToBox(mail, b);
    var all := ToBox(mail, b);
    assert forall i :: 0 <= i < |s.post.taken[b]| ==> s.post.taken[b][i] == all[i];
  }

  /** In every run, what is taken out of a box is, per sender, an increasing selection of the letters that the sender
      has sent to it, with packet header, mail header and data unchanged. */
  lemma MailIsFaithful(ss: seq<State>, steps: seq<Step>, n: nat, b: int)
    requires Trace(ss, steps) && n <= |steps| && b in ss[0].post.taken
    ensures var mail := Taken(ss, steps, b, n);
            && (forall i :: 0 <= i < |mail| ==>
                  var sent := Letters(steps, mail[i].tag.src, n);
                  mail[i].tag.number < |sent| && IsLetter(mail[i], sent[mail[i].tag.number]) && mail[i].mailHdr.to == b)
            && (forall i, j :: 0 <= i < j < |mail| && mail[i].tag.src == mail[j].tag.src ==>
                  mail[i].tag.number < mail[j].tag.number)
  {
    hide Inv, Apply, Enabled, Taken, Letters, IsLetter;
    TraceOk(ss, steps, n);
    TakenIsSteps(ss, steps, b, n);
    BoxIsFaithful(ss[n], b);
    var mail := Taken(ss, steps, b, n);
    forall i | 0 <= i < |mail|
      ensures ss[n].net.sent[mail[i].tag.src] == Letters(steps, mail[i].tag.src, n)
    {
      assert MailOk(ss[n].net, mail[i]);
      SendersKnown(ss, steps, n);
      SentIsSteps(ss, steps, mail[i].tag.src, n);
    }
  }

  lemma {:induction false} SendersKnown(ss: seq<State>, steps: seq<Step>, n: nat)
    requires Trace(ss, steps) && n <= |steps|
    ensures ss[n].net.sent.Keys == ss[0].net.sent.Keys
  {
    hide Inv, Apply, Enabled, Init;
    if n > 0 {
      SendersKnown(ss, steps, n - 1);
      TraceStep(ss, steps, n - 1);
    }
  }

  /** Every packet taken off the network is delivered, or is the one in the worker's hands, or the one in the
      inbox; it is delivered once. */
  lemma DeliveredOnce(ss: seq<State>, steps: seq<Step>, n: nat, tag: Tag)
    requires Trace(ss, steps) && n <= |steps|
    ensures var s := ss[n];
            && multiset(s.rx.polled)[tag] <= 1
            && multiset(Tags(s.post.delivered))[tag] + multiset(InTransit(s.rx))[tag] == multiset(s.rx.polled)[tag]
  {
    hide Apply, NetOk, RxOk, PostOk;
    TraceOk(ss, steps, n);
    CountOnce(ss[n].rx.polled, tag);
  }

  lemma {:induction false} CountOnce(tags: seq<Tag>, tag: Tag)
    requires forall i, j :: 0 <= i < j < |tags| && tags[i].src == tags[j].src ==> tags[i].number < tags[j].number
    ensures multiset(tags)[tag] <= 1
    decreases |tags|
  {
    if tags != [] {
      var last := |tags| - 1;
      CountOnce(tags[..last], tag);
      assert tags == tags[..last] + [tags[last]];
      assert tags[last] !in tags[..last];
    }
  }
}
