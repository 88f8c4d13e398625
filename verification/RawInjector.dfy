/** The injector over all its ports: registrations come and go, packets arrive, started injections finish later. */
module RawInjectors {
  import opened Sequences
  import opened Bytes
  import opened RawFrame
  import opened RawInjection

  /** One injection goroutine: the registration that started it and what it captured. */
  datatype Job = Job(owner: nat, template: seq<Byte>, ipOff: nat, isn: nat, fake: seq<Byte>)

  /** Every registration ever made, the ports that lead to one, every job ever started, and the finished ones. */
  datatype System = System(remotePort: nat, table: map<nat, nat>, regs: seq<Port>, jobs: seq<Job>, finished: set<nat>)

  datatype Event = Register(port: nat, hello: seq<Byte>) | Cleanup(port: nat) | Packet(pkt: seq<Byte>) | Finish(job: nat)

  function Empty(remotePort: nat): System {
    System(remotePort, map[], [], [], {})
  }

  /** The registration this packet reaches, and what it tells it. */
  function Arrives(s: System, pkt: seq<Byte>): Option<(nat, Sighting)> {
    var sight := Look(pkt, s.remotePort);
    if sight.Seen? && sight.port in s.table then Some((s.table[sight.port], sight.what)) else None
  }

  function OnPacket(s: System, pkt: seq<Byte>): System {
    match Arrives(s, pkt)
    case None => s
    case Some((r, what)) =>
      if r >= |s.regs| then s
      else
        var reg := s.regs[r];
        var heard := s.(regs := s.regs[r := Hear(reg, what)]);
        if what.Handshake? && !reg.fakeSent then
          heard.(jobs := s.jobs + [Job(r, what.template, what.ipOff, reg.synSeq, reg.hello)])
        else heard
  }

  function Step(s: System, e: Event): System {
    match e
    case Register(port, hello) => s.(table := s.table[port := |s.regs|], regs := s.regs + [Fresh(hello)])
    case Cleanup(port) => s.(table := s.table - {port})
    case Packet(pkt) => OnPacket(s, pkt)
    case Finish(job) => if job < |s.jobs| then s.(finished := s.finished + {job}) else s
  }

  function Run(s: System, events: seq<Event>): System {
    if events == [] then s else Step(Run(s, events[..|events| - 1]), events[|events| - 1])
  }

  /** What an event tells registration `r`: one sighting, or nothing. */
  function Tells(s: System, e: Event, r: nat): seq<Sighting> {
    if e.Packet? && Arrives(s, e.pkt).Some? && Arrives(s, e.pkt).value.0 == r then [Arrives(s, e.pkt).value.1] else []
  }

  /** What registration `r` is told over a run. */
  function Heard(s: System, events: seq<Event>, r: nat): seq<Sighting> {
    if events == [] then []
    else Heard(s, events[..|events| - 1], r) + Tells(Run(s, events[..|events| - 1]), events[|events| - 1], r)
  }

  // ---- what every run keeps ----

  ghost predicate Coherent(s: System) {
    && (forall p :: p in s.table ==> s.table[p] < |s.regs|)
    && (forall r :: 0 <= r < |s.regs| ==> s.regs[r].synSeq < U32_SIZE)
    && (forall k :: k in s.finished ==> k < |s.jobs|)
    && JobsSound(s)
    && (forall r :: 0 <= r < |s.regs| && s.regs[r].fakeSent ==> HasJob(s, r))
  }

  /** At most one injection for each registration, started by a handshake, on a template the builder can read. */
  ghost predicate JobsSound(s: System) {
    && (forall k :: 0 <= k < |s.jobs| ==> JobSound(s, s.jobs[k]))
    && (forall k, l :: 0 <= k < l < |s.jobs| ==> s.jobs[k].owner != s.jobs[l].owner)
  }

  ghost predicate JobSound(s: System, j: Job) {
    && j.owner < |s.regs| && s.regs[j.owner].fakeSent && s.regs[j.owner].hello == j.fake
    && IsTemplate(j.template, j.ipOff) && j.isn < U32_SIZE
  }

  ghost predicate HasJob(s: System, r: nat) {
    exists k :: 0 <= k < |s.jobs| && s.jobs[k].owner == r
  }

  lemma StepKeeps(s: System, e: Event)
    requires Coherent(s)
    ensures Coherent(Step(s, e)) && |s.regs| <= |Step(s, e).regs|
    ensures s.jobs <= Step(s, e).jobs
  {
    var t := Step(s, e);
    match e
    case Packet(pkt) =>
      LookIsSane(pkt, s.remotePort);
      PacketKeeps(s, pkt);
    case Register(port, hello) =>
      forall r: nat | r < |t.regs| && t.regs[r].fakeSent ensures HasJob(t, r) {
        assert HasJob(s, r);
        var k :| 0 <= k < |s.jobs| && s.jobs[k].owner == r;
        assert t.jobs[k].owner == r;
      }
    case _ =>
      forall r: nat | r < |t.regs| && t.regs[r].fakeSent ensures HasJob(t, r) {
        assert HasJob(s, r);
        var k :| 0 <= k < |s.jobs| && s.jobs[k].owner == r;
        assert t.jobs[k].owner == r;
      }
  }

  lemma PacketKeeps(s: System, pkt: seq<Byte>)
    requires Coherent(s) && (Arrives(s, pkt).Some? ==> Sane(Arrives(s, pkt).value.1))
    ensures Coherent(OnPacket(s, pkt)) && s.jobs <= OnPacket(s, pkt).jobs && |OnPacket(s, pkt).regs| == |s.regs|
  {
    hide Look, IsTemplate;
    var t := OnPacket(s, pkt);
    if Arrives(s, pkt).Some? {
      var (r, what) := Arrives(s, pkt).value;
      assert s.jobs <= t.jobs;
      forall q: nat | q < |t.regs| && t.regs[q].fakeSent ensures HasJob(t, q) {
        if s.regs[q].fakeSent {
          assert HasJob(s, q);
          var k :| 0 <= k < |s.jobs| && s.jobs[k].owner == q;
          assert t.jobs[k].owner == q;
        } else {
          assert t.jobs[|s.jobs|].owner == q;
        }
      }
      forall k | 0 <= k < |t.jobs| ensures JobSound(t, t.jobs[k]) {
        if k < |s.jobs| {
          assert JobSound(s, s.jobs[k]);
        }
      }
    }
  }

  lemma {:induction false} RunKeeps(s: System, events: seq<Event>)
    requires Coherent(s)
    ensures Coherent(Run(s, events))
  {
    if events != [] {
      RunKeeps(s, events[..|events| - 1]);
      StepKeeps(Run(s, events[..|events| - 1]), events[|events| - 1]);
    }
  }

  lemma EmptyIsCoherent(remotePort: nat)
    ensures Coherent(Empty(remotePort))
  {
  }

  // ---- what a registration and its job are, from the packets alone ----

  lemma {:induction false} HeardNothingYet(s: System, events: seq<Event>, r: nat)
    requires Coherent(s) && r >= |Run(s, events).regs|
    ensures Heard(s, events, r) == [] && r >= |s.regs|
  {
    if events != [] {
      var before := Run(s, events[..|events| - 1]);
      RunKeeps(s, events[..|events| - 1]);
      StepKeeps(before, events[|events| - 1]);
      HeardNothingYet(s, events[..|events| - 1], r);
    }
  }

  lemma StepTells(s: System, e: Event, r: nat, hello: seq<Byte>, heard: seq<Sighting>)
    requires Coherent(s) && r < |s.regs| && s.regs[r] == After(hello, heard)
    ensures Step(s, e).regs[r] == After(hello, heard + Tells(s, e, r))
  {
    hide Look, IsTemplate, Hear;
    var told := Tells(s, e, r);
    if told == [] {
      assert heard + told == heard;
    } else {
      assert (heard + told)[..|heard|] == heard;
    }
  }

  /** In every interleaving each registration is what its own packets make of it. */
  lemma {:induction false} RegistrationIsItsHistory(remotePort: nat, events: seq<Event>, r: nat)
    requires r < |Run(Empty(remotePort), events).regs|
    ensures var reg := Run(Empty(remotePort), events).regs[r];
      reg == After(reg.hello, Heard(Empty(remotePort), events, r))
  {
    var s := Empty(remotePort);
    EmptyIsCoherent(remotePort);
    if events != [] {
      var n := |events| - 1;
      var before := Run(s, events[..n]);
      RunKeeps(s, events[..n]);
      StepKeeps(before, events[n]);
      if r < |before.regs| {
        RegistrationIsItsHistory(remotePort, events[..n], r);
        var hello, heard := before.regs[r].hello, Heard(s, events[..n], r);
        StepTells(before, events[n], r, hello, heard);
        AfterMeans(hello, heard + Tells(before, events[n], r));
      } else {
        HeardNothingYet(s, events[..n], r);
        NewIsFresh(before, events[n], r);
      }
    }
  }

  lemma NewIsFresh(s: System, e: Event, r: nat)
    requires Coherent(s) && |s.regs| <= r < |Step(s, e).regs|
    ensures Step(s, e).regs[r] == Fresh(Step(s, e).regs[r].hello) && Tells(s, e, r) == []
  {
  }

  /** A job carries the first handshake packet of its registration and the last SYN seen before it. */
  ghost predicate JobFits(j: Job, heard: seq<Sighting>) {
    exists i: nat :: IsFirstHandshake(heard, i) && heard[i] == Handshake(j.template, j.ipOff)
      && j.isn == LastIsn(heard[..i])
  }

  lemma JobStillFits(j: Job, heard: seq<Sighting>, more: seq<Sighting>)
    requires JobFits(j, heard)
    ensures JobFits(j, heard + more)
  {
    var i: nat :| IsFirstHandshake(heard, i) && heard[i] == Handshake(j.template, j.ipOff) && j.isn == LastIsn(heard[..i]);
    assert (heard + more)[..i] == heard[..i];
    assert IsFirstHandshake(heard + more, i);
  }

  /** A step that starts a job starts it on the handshake it tells the job's owner, the first one. */
  lemma NewJobFits(s: System, e: Event, k: nat, heard: seq<Sighting>)
    requires Coherent(s) && |s.jobs| <= k < |Step(s, e).jobs|
    requires var r := Step(s, e).jobs[k].owner; r < |s.regs| ==> s.regs[r] == After(s.regs[r].hello, heard)
    ensures var j := Step(s, e).jobs[k]; JobFits(j, heard + Tells(s, e, j.owner))
  {
    hide Look, IsTemplate, Hear;
    var j := Step(s, e).jobs[k];
    var all := heard + Tells(s, e, j.owner);
    AfterMeans(s.regs[j.owner].hello, heard);
    forall i | 0 <= i < |heard| ensures !all[i].Handshake? {
      assert !HandshakeAt(heard, i);
    }
    assert all[..|heard|] == heard;
    assert IsFirstHandshake(all, |heard|);
  }

  /** In every interleaving each job is the one its registration's packets call for. */
  lemma {:induction false} JobsFit(remotePort: nat, events: seq<Event>, k: nat)
    requires k < |Run(Empty(remotePort), events).jobs|
    ensures var j := Run(Empty(remotePort), events).jobs[k];
      JobFits(j, Heard(Empty(remotePort), events, j.owner))
  {
    var s := Empty(remotePort);
    EmptyIsCoherent(remotePort);
    if events != [] {
      var n := |events| - 1;
      var before, last := Run(s, events[..n]), events[n];
      RunKeeps(s, events[..n]);
      StepKeeps(before, last);
      var j := Step(before, last).jobs[k];
      var heard := Heard(s, events[..n], j.owner);
      if k < |before.jobs| {
        JobsFit(remotePort, events[..n], k);
        JobStillFits(j, heard, Tells(before, last, j.owner));
      } else {
        if j.owner < |before.regs| {
          RegistrationIsItsHistory(remotePort, events[..n], j.owner);
        }
        NewJobFits(before, last, k, heard);
      }
    }
  }

  /** Some job of the registration has finished: its channel is closed. */
  ghost predicate Injected(s: System, r: nat) {
    exists k :: k in s.finished && k < |s.jobs| && s.jobs[k].owner == r
  }

  /** A job that finishes finds the channel of its registration open: no interleaving closes it twice. */
  lemma ClosedOnce(s: System, k: nat)
    requires Coherent(s) && k < |s.jobs| && k !in s.finished
    ensures !Injected(s, s.jobs[k].owner) && Injected(Step(s, Finish(k)), s.jobs[k].owner)
  {
    assert k in Step(s, Finish(k)).finished;
  }

  /**
   * The injector over every run. A registration is confirmed exactly when, after its handshake ACK, the server
   * acknowledged just the SYN known by then; it gets at most one injection, and gets one exactly when a handshake ACK
   * was seen; `injected` is never closed before that.
   */
  lemma EveryRunInjectsOnce(remotePort: nat, events: seq<Event>, r: nat)
    requires r < |Run(Empty(remotePort), events).regs|
    ensures var s, heard := Run(Empty(remotePort), events), Heard(Empty(remotePort), events, r);
      && (s.regs[r].confirmed <==> exists i: nat, j: nat :: ConfirmsAt(heard, i, j))
      && (HasJob(s, r) <==> exists i: nat :: HandshakeAt(heard, i))
      && (forall k, l :: 0 <= k < |s.jobs| && 0 <= l < |s.jobs| && s.jobs[k].owner == s.jobs[l].owner == r ==> k == l)
      && (Injected(s, r) ==> HasJob(s, r)) && (s.regs[r].confirmed ==> HasJob(s, r))
  {
    EmptyIsCoherent(remotePort);
    RunKeeps(Empty(remotePort), events);
    var s, heard := Run(Empty(remotePort), events), Heard(Empty(remotePort), events, r);
    RegistrationIsItsHistory(remotePort, events, r);
    AfterMeans(s.regs[r].hello, heard);
    if HasJob(s, r) {
      var k :| 0 <= k < |s.jobs| && s.jobs[k].owner == r;
      assert JobSound(s, s.jobs[k]);
    }
    if i: nat, j: nat :| ConfirmsAt(heard, i, j) {
      assert HandshakeAt(heard, i);
    }
  }

  // ---- the injector ----

  class PortState {
    ghost const id: nat // which registration this is
    const fakeHello: seq<Byte>
    var synSeq: nat
    var fakeSent: bool
    var confirmed: bool // the channel of that name is closed
    var injected: bool // the channel of that name is closed

    constructor (fakeHello: seq<Byte>, ghost id: nat)
      ensures Value() == Fresh(fakeHello) && !injected && this.id == id
    {
      this.id := id;
      this.fakeHello := fakeHello;
      synSeq, fakeSent, confirmed, injected := 0, false, false, false;
    }

    function Value(): Port
      reads this
    {
      Port(fakeHello, synSeq, fakeSent, confirmed)
    }
  }

  /** What handlePacket hands to the goroutine it starts. */
  datatype Injection = Injection(ps: PortState, template: seq<Byte>, ipOff: nat, isn: nat, payload: seq<Byte>)

  class RawInjector {
    const remotePort: nat
    var ports: map<nat, PortState>
    ghost var sys: System
    ghost var made: seq<PortState> // one for each registration, in order

    ghost predicate Valid()
      reads this, made
    {
      && Coherent(sys) && sys.remotePort == remotePort
      && |made| == |sys.regs|
      && (forall r :: 0 <= r < |made| ==> made[r].id == r && made[r].Value() == sys.regs[r])
      && (forall r :: 0 <= r < |made| ==> (made[r].injected <==> Injected(sys, r)))
      && ports.Keys == sys.table.Keys
      && (forall p :: p in ports ==> ports[p] == made[sys.table[p]])
    }

    constructor (remotePort: nat)
      ensures Valid() && sys == Empty(remotePort) && made == []
    {
      this.remotePort := remotePort;
      ports := map[];
      sys := Empty(remotePort);
      made := [];
    }

    method RegisterPort(localPort: nat, fakeHello: seq<Byte>)
      requires Valid()
      modifies this
      ensures Valid() && sys == Step(old(sys), Register(localPort, fakeHello))
      ensures exists ps :: fresh(ps) && made == old(made) + [ps]
    {
      StepKeeps(sys, Register(localPort, fakeHello));
      var ps := new PortState(fakeHello, |made|);
      ports := ports[localPort := ps];
      sys := Step(sys, Register(localPort, fakeHello));
      made := made + [ps];
      forall r: nat | r < |made| ensures made[r].injected <==> Injected(sys, r) {
        assert Injected(sys, r) <==> Injected(old(sys), r);
        assert forall k :: 0 <= k < |sys.jobs| ==> JobSound(old(sys), sys.jobs[k]);
      }
    }

    method CleanupPort(localPort: nat)
      requires Valid()
      modifies this
      ensures Valid() && sys == Step(old(sys), Cleanup(localPort)) && made == old(made)
    {
      StepKeeps(sys, Cleanup(localPort));
      ports := ports - {localPort};
      sys := Step(sys, Cleanup(localPort));
      forall r: nat | r < |made| ensures made[r].injected <==> Injected(sys, r) {
        assert Injected(sys, r) <==> Injected(old(sys), r);
      }
    }

    /** The locked section for a SYN: the newest initial sequence number counts. */
    method RecordSyn(ps: PortState, isn: nat, ghost pkt: seq<Byte>, ghost r: nat)
      requires Valid() && r < |made| && ps == made[r] && Arrives(sys, pkt) == Some((r, Syn(isn)))
      modifies this`sys, ps`synSeq
      ensures Valid() && sys == OnPacket(old(sys), pkt)
    {
      hide OnPacket, Arrives, Look, Parse, Coherent, Injected;
      Settles(sys, pkt, r, Syn(isn));
      ps.synSeq := isn;
      sys := OnPacket(sys, pkt);
    }

    /** The first handshake ACK claims the injection. */
    method Claim(ps: PortState, ghost pkt: seq<Byte>, ghost ipOff: nat, ghost r: nat)
      requires Valid() && r < |made| && ps == made[r] && Arrives(sys, pkt) == Some((r, Handshake(pkt, ipOff)))
      requires !ps.fakeSent
      modifies this`sys, ps`fakeSent
      ensures Valid() && sys == OnPacket(old(sys), pkt)
    {
      hide OnPacket, Arrives, Look, Parse, Coherent, Injected;
      Settles(sys, pkt, r, Handshake(pkt, ipOff));
      ps.fakeSent := true;
      sys := OnPacket(sys, pkt);
    }

    /** The locked section for the handshake ACK, and the injection it leads to. */
    method ClaimInjection(ps: PortState, pkt: seq<Byte>, ipOff: nat, ghost r: nat) returns (job: Option<Injection>)
      requires Valid() && r < |made| && ps == made[r] && Arrives(sys, pkt) == Some((r, Handshake(pkt, ipOff)))
      modifies this`sys, ps`fakeSent
      ensures Valid() && sys == OnPacket(old(sys), pkt)
      ensures job.None? <==> sys.jobs == old(sys).jobs
      ensures job.Some? ==> |sys.jobs| == |old(sys).jobs| + 1 && IsJob(job.value, |old(sys).jobs|)
    {
      assert ps.Value() == sys.regs[r];
      ClaimIs(sys, pkt, r, ipOff);
      hide Valid, OnPacket, Arrives, Look;
      if ps.fakeSent {
        return None;
      }
      var isn, fake := ps.synSeq, ps.fakeHello;
      Claim(ps, pkt, ipOff, r);
      job := Some(Injection(ps, pkt, ipOff, isn, fake));
    }

    /** The locked section for the server's ACK. */
    method Confirm(ps: PortState, ackNo: nat, ghost pkt: seq<Byte>, ghost r: nat)
      requires Valid() && r < |made| && ps == made[r] && Arrives(sys, pkt) == Some((r, Reply(ackNo)))
      modifies this`sys, ps`confirmed
      ensures Valid() && sys == OnPacket(old(sys), pkt)
    {
      hide OnPacket, Arrives, Look, Parse, Coherent, Injected;
      Settles(sys, pkt, r, Reply(ackNo));
      if ps.fakeSent && ackNo == Next(ps.synSeq) {
        if !ps.confirmed {
          ps.confirmed := true;
        }
      }
      sys := OnPacket(sys, pkt);
    }

    /** handlePacket; the injection it starts, if any, is handed to the caller. */
    method HandlePacket(pkt: seq<Byte>) returns (job: Option<Injection>)
      requires Valid()
      modifies this`sys, made
      ensures Valid() && sys == Step(old(sys), Packet(pkt))
      ensures job.None? <==> sys.jobs == old(sys).jobs
      ensures job.Some? ==> |sys.jobs| == |old(sys).jobs| + 1 && IsJob(job.value, |old(sys).jobs|)
    {
      job := None;
      assert sys.remotePort == remotePort && ports.Keys == sys.table.Keys;
      assert forall p :: p in ports ==> sys.table[p] < |made| && ports[p] == made[sys.table[p]];
      assert Step(sys, Packet(pkt)) == OnPacket(sys, pkt);
      Routes(sys, pkt);
      var parsed := Parse(pkt);
      hide *;
      if parsed.None? {
        return;
      }
      var s := parsed.value;
      if s.dstPort == remotePort {
        if s.srcPort !in ports {
          return;
        }
        var ps := ports[s.srcPort];
        if Has(s.flags, SYN) && !Has(s.flags, ACK) {
          RecordSyn(ps, s.seqNo, pkt, sys.table[s.srcPort]);
          return;
        }
        if IsEmptyAck(s) {
          job := ClaimInjection(ps, pkt, s.ipOff, sys.table[s.srcPort]);
        }
        return;
      }
      if s.srcPort == remotePort {
        if s.dstPort !in ports {
          return;
        }
        var ps := ports[s.dstPort];
        if IsEmptyAck(s) {
          Confirm(ps, s.ackNo, pkt, sys.table[s.dstPort]);
        }
      }
    }

    /** The injection is job `k`, captured from its own registration. */
    ghost predicate IsJob(i: Injection, k: nat)
      reads this, made
    {
      && k < |sys.jobs| && sys.jobs[k].owner < |made| && i.ps == made[sys.jobs[k].owner]
      && sys.jobs[k] == Job(sys.jobs[k].owner, i.template, i.ipOff, i.isn, i.payload)
    }

    /**
     * The goroutine: builds the frame, sends it (whether or not that works), closes the channel. The frame is a fake
     * for the captured packet and the channel is still open, whatever happened since the start.
     */
    method FinishInjection(i: Injection, ghost k: nat) returns (frame: array<Byte>)
      requires Valid() && IsJob(i, k) && k !in sys.finished
      modifies this, i.ps
      ensures Valid() && sys == Step(old(sys), Finish(k)) && made == old(made)
      ensures old(!i.ps.injected) && i.ps.injected
      ensures IsTemplate(i.template, i.ipOff) && IsFakeFrame(frame[..], i.template, i.isn, i.payload, i.ipOff)
    {
      assert JobSound(sys, sys.jobs[k]);
      StepKeeps(sys, Finish(k));
      ClosedOnce(sys, k);
      FinishInjects(sys, k);
      hide IsTemplate, Coherent, Injected, IsFakeFrame, HeaderLengthAt, TcpLengthAt;
      frame := BuildFakeFrame(i.template, i.isn, i.payload, i.ipOff);
      if !i.ps.injected {
        i.ps.injected := true;
      }
      sys := Step(sys, Finish(k));
    }
  }

  /** Which locked section a parsed segment leads to, and that there is none otherwise. */
  ghost predicate RoutedBy(s: System, pkt: seq<Byte>, g: Segment) {
    var r := Arrives(s, pkt);
    if g.dstPort == s.remotePort && g.srcPort in s.table then
      if Has(g.flags, SYN) && !Has(g.flags, ACK) then r == Some((s.table[g.srcPort], Syn(g.seqNo)))
      else if IsEmptyAck(g) then r == Some((s.table[g.srcPort], Handshake(pkt, g.ipOff)))
      else r == None
    else if g.dstPort != s.remotePort && g.srcPort == s.remotePort && g.dstPort in s.table && IsEmptyAck(g) then
      r == Some((s.table[g.dstPort], Reply(g.ackNo)))
    else r == None
  }

  lemma Routes(s: System, pkt: seq<Byte>)
    ensures Parse(pkt).None? ==> Arrives(s, pkt) == None
    ensures Parse(pkt).Some? ==> RoutedBy(s, pkt, Parse(pkt).value)
    ensures Arrives(s, pkt) == None ==> OnPacket(s, pkt) == s
    ensures Arrives(s, pkt).Some? && !Arrives(s, pkt).value.1.Handshake? ==> OnPacket(s, pkt).jobs == s.jobs
  {
    hide Parse;
  }

  lemma ClaimIs(s: System, pkt: seq<Byte>, r: nat, ipOff: nat)
    requires r < |s.regs| && Arrives(s, pkt) == Some((r, Handshake(pkt, ipOff)))
    ensures OnPacket(s, pkt) ==
      if s.regs[r].fakeSent then s
      else s.(regs := s.regs[r := s.regs[r].(fakeSent := true)],
              jobs := s.jobs + [Job(r, pkt, ipOff, s.regs[r].synSeq, s.regs[r].hello)])
  {
    hide Look;
    if s.regs[r].fakeSent {
      assert s.regs[r := s.regs[r]] == s.regs;
    }
  }

  lemma Settles(s: System, pkt: seq<Byte>, r: nat, what: Sighting)
    requires Coherent(s) && Arrives(s, pkt) == Some((r, what)) && r < |s.regs|
    ensures var t := OnPacket(s, pkt);
      && Coherent(t) && t.table == s.table && t.remotePort == s.remotePort
      && t.regs == s.regs[r := Hear(s.regs[r], what)]
      && forall q: nat :: Injected(s, q) <==> Injected(t, q)
  {
    LookIsSane(pkt, s.remotePort);
    PacketKeeps(s, pkt);
    SameInjected(s, OnPacket(s, pkt));
  }

  lemma SameInjected(s: System, t: System)
    requires Coherent(s) && s.jobs <= t.jobs && s.finished == t.finished
    ensures forall r: nat :: Injected(s, r) <==> Injected(t, r)
  {
  }

  lemma FinishInjects(s: System, k: nat)
    requires k < |s.jobs|
    ensures forall r: nat :: Injected(Step(s, Finish(k)), r) <==> Injected(s, r) || r == s.jobs[k].owner
  {
    forall r: nat ensures Injected(Step(s, Finish(k)), r) <==> Injected(s, r) || r == s.jobs[k].owner {
      assert k in Step(s, Finish(k)).finished;
    }
  }
}
