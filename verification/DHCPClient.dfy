// The DHCP client: the states of Figure 5 of RFC 2131, driven by messages, timers and associations.
module DHCP {
  import opened Common

  datatype ClientState = IDLE | INIT | INIT_REBOOT | REBOOTING | SELECTING | REQUESTING | BOUND | RENEWING | REBINDING

  datatype MessageType =
    | DHCPDISCOVER | DHCPOFFER | DHCPREQUEST | DHCPDECLINE | DHCPACK | DHCPNAK | DHCPRELEASE | DHCPINFORM

  datatype TimerKind = WAIT_OFFER | WAIT_ACK | T1 | T2 | LEASE_TIMEOUT | START_DHCP

  type Address = nat

  const ALLONES_ADDRESS: Address := 0xFFFF_FFFF

  // A self message of the simulation: among those for the same time the one scheduled first is first.
  datatype Timer = Off | Pending(at: int, order: nat) {
    predicate Before(t: Timer) {
      Pending? && (t.Off? || at < t.at || (at == t.at && order < t.order))
    }
  }

  // An address that has not been told is None.
  datatype Lease = Lease(
    ip: Address, mac: nat, serverId: Address,
    subnetMask: Option<Address>, gateway: Option<Address>, dns: Option<Address>, ntp: Option<Address>,
    leaseTime: int, renewalTime: int, rebindTime: int) {
    predicate InFuture() {
      0 <= renewalTime && 0 <= rebindTime && 0 <= leaseTime
    }

    // T1 is not after T2, and T2 not after the end of the lease.
    predicate InOrder() {
      renewalTime <= rebindTime <= leaseTime
    }

    // T2 is the first of the three; of equal times T1 comes first, and the end of the lease last.
    predicate RebindsFirst() {
      rebindTime < renewalTime && rebindTime <= leaseTime
    }

    // The end of the lease is the first of the three.
    predicate EndsFirst() {
      leaseTime < renewalTime && leaseTime < rebindTime
    }
  }

  // What the client reads of an incoming message; an unspecified address is None.
  datatype Message = Message(
    reply: bool, xid: int, messageType: MessageType, yiaddr: Option<Address>, serverId: Address,
    subnetMask: Option<Address>, routers: seq<Address>, dns: seq<Address>, ntp: seq<Address>,
    leaseTime: int, renewalTime: int, rebindTime: int) {
    // No time of an acknowledgement that confirms an address lies in the past.
    predicate InFuture() {
      messageType == DHCPACK && yiaddr.Some? ==> 0 <= renewalTime && 0 <= rebindTime && 0 <= leaseTime
    }
  }

  // What the client sends.
  datatype Packet = Packet(messageType: MessageType, xid: int, ciaddr: Option<Address>, requestedIp: Option<Address>,
                           serverId: Option<Address>, dest: Option<Address>)

  // The errors of the source, and reading a lease that is not there.
  datatype Outcome = Done | InvalidState | T2InWrongState | UnknownTimer | NoLease

  // Figure 5 of RFC 2131 as far as messages go.
  function AfterMessage(state: ClientState, t: MessageType): (r: ClientState)
    ensures state == SELECTING && t == DHCPOFFER ==> r == REQUESTING
    ensures state in {REQUESTING, RENEWING, REBINDING, REBOOTING} && t == DHCPACK ==> r == BOUND
    ensures state in {REQUESTING, RENEWING, REBINDING, REBOOTING} && t == DHCPNAK ==> r == SELECTING
    ensures r != state ==>
      (t == DHCPOFFER && state == SELECTING)
        || (t in {DHCPACK, DHCPNAK} && state in {REQUESTING, RENEWING, REBINDING, REBOOTING})
  {
    match state
    case SELECTING => if t == DHCPOFFER then REQUESTING else state
    case REQUESTING => if t == DHCPACK then BOUND else if t == DHCPNAK then SELECTING else state
    case RENEWING => if t == DHCPACK then BOUND else if t == DHCPNAK then SELECTING else state
    case REBINDING => if t == DHCPACK then BOUND else if t == DHCPNAK then SELECTING else state
    case REBOOTING => if t == DHCPACK then BOUND else if t == DHCPNAK then SELECTING else state
    case _ => state
  }

  // A lease after an offer: it knows the address and who offered it.
  function Offered(ip: Address, mac: nat, serverId: Address): (r: Lease)
    ensures r.ip == ip && r.mac == mac && r.serverId == serverId
    ensures r.subnetMask == None && r.gateway == None && r.dns == None && r.ntp == None
    ensures r.leaseTime == 0 && r.renewalTime == 0 && r.rebindTime == 0
  {
    Lease(ip, mac, serverId, None, None, None, None, 0, 0, 0)
  }

  // r is what lease l becomes by an acknowledgement: what it was offered for stays, and the rest is taken from the
  // message if that confirms an address.
  ghost predicate ConfirmedBy(r: Lease, l: Lease, msg: Message) {
    && r.ip == l.ip && r.mac == l.mac && r.serverId == l.serverId
    && (msg.yiaddr.None? ==> r == l)
    && (msg.yiaddr.Some? ==>
         && r.leaseTime == msg.leaseTime && r.renewalTime == msg.renewalTime && r.rebindTime == msg.rebindTime
         && r.subnetMask == msg.subnetMask
         && r.gateway == (if msg.routers != [] then Some(msg.routers[0]) else l.gateway)
         && r.dns == (if msg.dns != [] then Some(msg.dns[0]) else l.dns)
         && r.ntp == (if msg.ntp != [] then Some(msg.ntp[0]) else l.ntp))
  }

  // The request of a state, by Table 4 of section 4.3.6 of RFC 2131; a dest of None is a broadcast.
  function RequestFor(state: ClientState, xid: int, l: Lease): (p: Packet)
    ensures p.messageType == DHCPREQUEST && p.xid == xid
    ensures state in {INIT_REBOOT, REQUESTING} ==> p.requestedIp == Some(l.ip) && p.ciaddr == None && p.dest == None
    ensures state in {RENEWING, REBINDING} ==>
      p.ciaddr == Some(l.ip) && p.requestedIp == None && p.serverId == None
    ensures state == INIT_REBOOT ==> p.serverId == None
    ensures state == REQUESTING ==> p.serverId == Some(l.serverId)
    ensures state == RENEWING ==> p.dest == Some(l.serverId)
    ensures state == REBINDING ==> p.dest == None
  {
    var confirmed := state == RENEWING || state == REBINDING;
    Packet(DHCPREQUEST, xid,
           if confirmed then Some(l.ip) else None,
           if confirmed then None else Some(l.ip),
           if state == REQUESTING then Some(l.serverId) else None,
           if state == RENEWING then Some(l.serverId) else None)
  }

  class DHCPClient {
    var clientState: ClientState
    var xid: int
    var lease: Option<Lease>
    var timerT1: Timer
    var timerT2: Timer
    var timerTo: Timer
    var timerToKind: TimerKind
    var leaseTimer: Timer
    var startTimer: Timer
    const macAddress: nat
    // The address and the netmask of the interface.
    var address: Option<Address>
    var netmask: Option<Address>
    var sent: seq<Packet>
    // The simulation time, and the number of timers scheduled so far.
    var now: int
    var scheduled: nat
    const responseTimeout: nat

    // startApp: only the start timer is pending. A lease may be left from a previous run.
    constructor (mac: nat, left: Option<Lease>, start: int, time: int)
      requires left.Some? ==> left.value.InFuture()
      requires time <= start
      ensures Starting()
    {
      macAddress, clientState, xid, lease, address, netmask, sent := mac, IDLE, 0, left, None, None, [];
      timerT1, timerT2, timerTo, timerToKind, leaseTimer := Off, Off, Off, WAIT_OFFER, Off;
      startTimer, now, scheduled := Pending(start, 0), time, 1;
      responseTimeout := 60;
    }

    ghost predicate Starting()
      reads this
    {
      && timerT1.Off? && timerT2.Off? && timerTo.Off? && leaseTimer.Off? && startTimer.Pending?
      && (lease.Some? ==> lease.value.InFuture()) && InTime()
    }

    // No timer is overdue, and each was scheduled before now.
    ghost predicate InTime()
      reads this
    {
      && TimerInTime(timerT1) && TimerInTime(timerT2) && TimerInTime(timerTo) && TimerInTime(leaseTimer)
      && TimerInTime(startTimer)
    }

    ghost predicate TimerInTime(t: Timer)
      reads this`now, this`scheduled
    {
      t.Pending? ==> now <= t.at && t.order < scheduled
    }

    // Only the response timeout is pending.
    ghost predicate Waiting(kind: TimerKind)
      reads this
    {
      timerTo.Pending? && timerToKind == kind && timerT1.Off? && timerT2.Off? && leaseTimer.Off?
    }

    // The interface has an address although nothing will take it away when the lease ends.
    predicate Unwatched()
      reads this`address, this`leaseTimer
    {
      address.Some? && leaseTimer.Off?
    }

    // The client has just sent something, and waits for the answer.
    predicate AwaitsFromNow()
      reads this`timerTo, this`now
    {
      timerTo.Pending? && timerTo.at == now + responseTimeout
    }

    // T2 and the end of the lease were scheduled when the lease was bound, in this order.
    ghost predicate LeaseInStep()
      reads this`timerT2, this`leaseTimer, this`lease
    {
      && timerT2.Pending? && leaseTimer.Pending? && lease.Some? && timerT2.order < leaseTimer.order
      && leaseTimer.at - timerT2.at == lease.value.leaseTime - lease.value.rebindTime
    }

    // And so was T1, before them.
    ghost predicate RenewalInStep()
      reads this`timerT1, this`timerT2, this`lease
    {
      && timerT1.Pending? && timerT2.Pending? && lease.Some? && timerT1.order < timerT2.order
      && timerT2.at - timerT1.at == lease.value.rebindTime - lease.value.renewalTime
    }

    // Every state has its own set of pending timers, and at least one.
    ghost predicate Valid()
      reads this
    {
      && startTimer.Off? && InTime() && (lease.Some? ==> lease.value.InFuture())
      && match clientState
         case SELECTING => Waiting(WAIT_OFFER)
         case REQUESTING => Waiting(WAIT_ACK) && lease.Some?
         case REBOOTING => Waiting(WAIT_ACK) && lease.Some?
         case REBINDING => Waiting(WAIT_ACK) && lease.Some? && address == Some(lease.value.ip)
         case BOUND =>
           && timerTo.Off? && RenewalInStep() && LeaseInStep() && address == Some(lease.value.ip)
         case RENEWING =>
           && timerTo.Pending? && timerToKind == WAIT_ACK && timerT1.Off? && LeaseInStep()
           && address == Some(lease.value.ip)
         case _ => false
    }

    // ---- timers ----

    // scheduleAt
    method Schedule(delay: int) returns (t: Timer)
      requires 0 <= delay
      modifies this`scheduled
      ensures t == Pending(now + delay, old(scheduled)) && scheduled == old(scheduled) + 1
    {
      t := Pending(now + delay, scheduled);
      scheduled := scheduled + 1;
    }

    method ScheduleTimerTO(kind: TimerKind)
      modifies this`timerTo, this`timerToKind, this`scheduled
      ensures timerTo == Pending(now + responseTimeout, old(scheduled)) && timerToKind == kind
        && scheduled == old(scheduled) + 1
    {
      timerTo := Off;      // one timeout is pending at a time
      timerToKind := kind;
      timerTo := Schedule(responseTimeout);
    }

    method CancelTimers()
      modifies this`timerT1, this`timerT2, this`timerTo, this`leaseTimer
      ensures timerT1.Off? && timerT2.Off? && timerTo.Off? && leaseTimer.Off?
    {
      timerT1, timerT2, timerTo, leaseTimer := Off, Off, Off, Off;
    }

    // ---- sending ----

    // A new transaction id is generated for each transmission.
    method SendDiscover(newXid: int)
      modifies this`xid, this`sent
      ensures xid == newXid && sent == old(sent) + [Packet(DHCPDISCOVER, newXid, None, None, None, None)]
    {
      xid := newXid;
      sent := sent + [Packet(DHCPDISCOVER, newXid, None, None, None, None)];
    }

    method SendRequest(newXid: int) returns (outcome: Outcome)
      modifies this`xid, this`sent
      ensures xid == newXid
      ensures outcome == if clientState !in {INIT_REBOOT, REQUESTING, RENEWING, REBINDING} then InvalidState
        else if lease.None? then NoLease else Done
      ensures outcome == Done ==> sent == old(sent) + [RequestFor(clientState, newXid, lease.value)]
      ensures outcome != Done ==> sent == old(sent)
    {
      xid := newXid;
      if clientState == INIT_REBOOT || clientState == REQUESTING || clientState == RENEWING
        || clientState == REBINDING {
        if lease.None? {
          return NoLease;
        }
        var l := lease.value;
        var request;
        if clientState == INIT_REBOOT {
          request := Packet(DHCPREQUEST, xid, None, Some(l.ip), None, None);
        } else if clientState == REQUESTING {
          request := Packet(DHCPREQUEST, xid, None, Some(l.ip), Some(l.serverId), None);
        } else if clientState == RENEWING {
          request := Packet(DHCPREQUEST, xid, Some(l.ip), None, None, Some(l.serverId));
        } else {
          request := Packet(DHCPREQUEST, xid, Some(l.ip), None, None, None);
        }
        sent := sent + [request];
        return Done;
      }
      return InvalidState;
    }

    // ---- steps of the protocol ----

    method InitClient(newXid: int)
      requires startTimer.Off? && (lease.Some? ==> lease.value.InFuture())
      modifies this`timerT1, this`timerT2, this`timerTo, this`leaseTimer, this`timerToKind, this`scheduled, this`xid,
        this`sent, this`clientState
      ensures Valid() && clientState == SELECTING && xid == newXid && AwaitsFromNow()
      ensures sent == old(sent) + [Packet(DHCPDISCOVER, newXid, None, None, None, None)]
    {
      CancelTimers();
      SendDiscover(newXid);
      ScheduleTimerTO(WAIT_OFFER);
      clientState := SELECTING;
    }

    method UnbindLease()
      modifies this`timerT1, this`timerT2, this`timerTo, this`leaseTimer, this`address, this`netmask
      ensures timerT1.Off? && timerT2.Off? && timerTo.Off? && leaseTimer.Off?
      ensures address == None && netmask == Some(ALLONES_ADDRESS)
    {
      CancelTimers();
      address, netmask := None, Some(ALLONES_ADDRESS);
    }

    method RecordOffer(msg: Message)
      modifies this`lease
      ensures lease == if msg.yiaddr.Some? then Some(Offered(msg.yiaddr.value, macAddress, msg.serverId))
        else old(lease)
    {
      if msg.yiaddr.Some? {
        lease := Some(Offered(msg.yiaddr.value, macAddress, msg.serverId));
      }
    }

    method RecordLease(msg: Message)
      requires lease.Some?
      modifies this`lease
      ensures lease.Some? && ConfirmedBy(lease.value, old(lease.value), msg)
    {
      if msg.yiaddr.Some? {
        var l := lease.value.(subnetMask := msg.subnetMask);
        if |msg.routers| > 0 {
          l := l.(gateway := Some(msg.routers[0]));
        }
        if |msg.dns| > 0 {
          l := l.(dns := Some(msg.dns[0]));
        }
        if |msg.ntp| > 0 {
          l := l.(ntp := Some(msg.ntp[0]));
        }
        lease := Some(l.(leaseTime := msg.leaseTime, renewalTime := msg.renewalTime, rebindTime := msg.rebindTime));
      }
    }

    // Configure the interface, and start the timer of the lease.
    method BindLease()
      requires lease.Some? && lease.value.InFuture()
      modifies this`address, this`netmask, this`leaseTimer, this`scheduled
      ensures address == Some(lease.value.ip) && netmask == lease.value.subnetMask
      ensures leaseTimer == Pending(now + lease.value.leaseTime, old(scheduled))
      ensures scheduled == old(scheduled) + 1
    {
      address, netmask := Some(lease.value.ip), lease.value.subnetMask;
      leaseTimer := Off;
      leaseTimer := Schedule(lease.value.leaseTime);
    }

    // What an acknowledgement of the lease `was` leads to.
    ghost predicate BoundBy(was: Lease, msg: Message)
      reads this
    {
      && clientState == BOUND && lease.Some? && ConfirmedBy(lease.value, was, msg)
      && address == Some(was.ip)
      && timerT1.Pending? && timerT2.Pending? && leaseTimer.Pending? && timerTo.Off?
      && (msg.yiaddr.Some? ==>
           && timerT1.at == now + msg.renewalTime && timerT2.at == now + msg.rebindTime
           && leaseTimer.at == now + msg.leaseTime && netmask == msg.subnetMask)
      && (msg.yiaddr.None? ==>
           && timerT1.at == now + was.renewalTime && timerT2.at == now + was.rebindTime
           && leaseTimer.at == now + was.leaseTime && netmask == was.subnetMask)
    }

    method HandleDHCPACK(msg: Message)
      requires startTimer.Off? && lease.Some? && lease.value.InFuture() && msg.InFuture() && msg.messageType == DHCPACK
      modifies this
      ensures Valid() && BoundBy(old(lease.value), msg) && now == old(now) && xid == old(xid) && sent == old(sent)
    {
      RecordLease(msg);
      timerTo := Off;
      timerT1 := Schedule(lease.value.renewalTime);
      timerT2 := Schedule(lease.value.rebindTime);
      BindLease();
      clientState := BOUND;
    }

    // The client accepts the first offer. Without an address in it, and without an old lease, there is none to request.
    method HandleDHCPOFFER(msg: Message, newXid: int) returns (outcome: Outcome)
      requires Valid() && clientState == SELECTING
      modifies this`timerTo, this`timerToKind, this`scheduled, this`clientState, this`lease, this`xid, this`sent
      ensures outcome == Done <==> msg.yiaddr.Some? || old(lease).Some?
      ensures clientState == REQUESTING && xid == newXid && AwaitsFromNow()
      ensures outcome == Done ==> Valid()
      ensures lease == if msg.yiaddr.Some? then Some(Offered(msg.yiaddr.value, macAddress, msg.serverId))
        else old(lease)
      ensures outcome == Done ==> sent == old(sent) + [RequestFor(REQUESTING, newXid, lease.value)]
      ensures outcome != Done ==> outcome == NoLease
    {
      ScheduleTimerTO(WAIT_ACK);
      clientState := REQUESTING;
      RecordOffer(msg);
      outcome := SendRequest(newXid);
    }

    // The message answers the last transmission of the client.
    predicate Answers(msg: Message)
      reads this`xid
    {
      msg.reply && msg.xid == xid
    }

    // A message from the network. Only an offer without an address can go wrong. What does not change the state changes
    // nothing at all.
    method HandleDHCPMessage(msg: Message, newXid: int) returns (outcome: Outcome)
      requires Valid() && msg.InFuture()
      modifies this
      ensures now == old(now)
      ensures outcome == Done <==>
        !(old(Answers(msg)) && old(clientState) == SELECTING && msg.messageType == DHCPOFFER
          && msg.yiaddr.None? && old(lease).None?)
      ensures outcome == Done ==> Valid()
      ensures outcome == Done ==>
        clientState == if old(Answers(msg)) then AfterMessage(old(clientState), msg.messageType) else old(clientState)
      ensures clientState == old(clientState) ==> unchanged(this)
      ensures clientState == BOUND && old(clientState) != BOUND ==>
        old(lease).Some? && BoundBy(old(lease.value), msg) && sent == old(sent)
      ensures outcome == Done && clientState == REQUESTING && old(clientState) != REQUESTING ==>
        lease == (if msg.yiaddr.Some? then Some(Offered(msg.yiaddr.value, macAddress, msg.serverId)) else old(lease))
          && sent == old(sent) + [RequestFor(REQUESTING, newXid, lease.value)]
      ensures clientState == SELECTING && old(clientState) != SELECTING ==>
        lease == old(lease) && sent == old(sent) + [Packet(DHCPDISCOVER, newXid, None, None, None, None)]
          && address == if old(clientState) == REQUESTING then old(address) else None
      ensures clientState != old(clientState) ==>
        if clientState == BOUND then xid == old(xid) else xid == newXid && AwaitsFromNow()
      ensures Unwatched() ==> old(Unwatched())
    {
      outcome := Done;
      if !msg.reply || msg.xid != xid {
        return;
      }
      var t := msg.messageType;
      if clientState == SELECTING {
        if t == DHCPOFFER {
          outcome := HandleDHCPOFFER(msg, newXid);
        }
      } else {
        HandleReply(msg, newXid);
      }
    }

    // A message in any state but SELECTING.
    method HandleReply(msg: Message, newXid: int)
      requires Valid() && msg.InFuture() && clientState != SELECTING
      modifies this
      ensures Valid() && now == old(now) && clientState == AfterMessage(old(clientState), msg.messageType)
      ensures clientState == old(clientState) ==> unchanged(this)
      ensures clientState == BOUND && old(clientState) != BOUND ==>
        old(lease).Some? && BoundBy(old(lease.value), msg) && sent == old(sent) && xid == old(xid)
      ensures clientState == SELECTING ==>
        xid == newXid && AwaitsFromNow() && lease == old(lease)
          && sent == old(sent) + [Packet(DHCPDISCOVER, newXid, None, None, None, None)]
          && address == if old(clientState) == REQUESTING then old(address) else None
      ensures Unwatched() ==> old(Unwatched())
    {
      if clientState == REQUESTING {
        HandleAboutRequest(msg, newXid);
      } else if clientState == RENEWING || clientState == REBINDING || clientState == REBOOTING {
        HandleAboutLease(msg, newXid);
      }
    }

    // A message in REQUESTING: the request is granted or refused.
    method HandleAboutRequest(msg: Message, newXid: int)
      requires Valid() && msg.InFuture() && clientState == REQUESTING
      modifies this
      ensures Valid() && now == old(now) && clientState == AfterMessage(REQUESTING, msg.messageType)
      ensures clientState == REQUESTING ==> unchanged(this)
      ensures clientState == BOUND ==> BoundBy(old(lease.value), msg) && sent == old(sent) && xid == old(xid)
      ensures clientState == SELECTING ==>
        xid == newXid && AwaitsFromNow() && address == old(address) && lease == old(lease)
          && sent == old(sent) + [Packet(DHCPDISCOVER, newXid, None, None, None, None)]
    {
      if msg.messageType == DHCPACK {
        HandleDHCPACK(msg);
      } else if msg.messageType == DHCPNAK {
        InitClient(newXid);
      }
    }

    // A message in RENEWING, REBINDING or REBOOTING: the lease is confirmed or refused.
    method HandleAboutLease(msg: Message, newXid: int)
      requires Valid() && msg.InFuture() && clientState in {RENEWING, REBINDING, REBOOTING}
      modifies this
      ensures Valid() && now == old(now) && clientState == AfterMessage(old(clientState), msg.messageType)
      ensures clientState == old(clientState) ==> unchanged(this)
      ensures clientState == BOUND ==> BoundBy(old(lease.value), msg) && sent == old(sent) && xid == old(xid)
      ensures clientState == SELECTING ==>
        xid == newXid && AwaitsFromNow() && address == None && lease == old(lease)
          && sent == old(sent) + [Packet(DHCPDISCOVER, newXid, None, None, None, None)]
      ensures Unwatched() ==> old(Unwatched())
    {
      if msg.messageType == DHCPACK {
        HandleDHCPACK(msg);
      } else if msg.messageType == DHCPNAK {
        StartOver(newXid);
      }
    }

    // The address goes, and the configuration starts anew.
    method StartOver(newXid: int)
      requires startTimer.Off? && InTime() && (lease.Some? ==> lease.value.InFuture())
      modifies this
      ensures Valid() && clientState == SELECTING && address == None && now == old(now) && lease == old(lease)
        && xid == newXid && AwaitsFromNow()
      ensures sent == old(sent) + [Packet(DHCPDISCOVER, newXid, None, None, None, None)]
    {
      UnbindLease();
      InitClient(newXid);
    }

    // The client associates with an access point and starts over.
    method Associated(newXid: int)
      requires Valid()
      modifies this
      ensures Valid() && clientState == SELECTING && address == None && now == old(now) && lease == old(lease)
      ensures xid == newXid && AwaitsFromNow()
      ensures sent == old(sent) + [Packet(DHCPDISCOVER, newXid, None, None, None, None)]
    {
      StartOver(newXid);
    }

    // START_DHCP
    method Start(newXid: int) returns (outcome: Outcome)
      requires Starting()
      modifies this
      ensures outcome == Done && Valid() && clientState == if old(lease).Some? then REBOOTING else SELECTING
      ensures now == old(startTimer.at) && lease == old(lease) && xid == newXid && AwaitsFromNow()
      ensures sent == old(sent) + [
        if old(lease).Some? then RequestFor(INIT_REBOOT, newXid, lease.value)
        else Packet(DHCPDISCOVER, newXid, None, None, None, None)]
    {
      now := startTimer.at;
      startTimer := Off;
      if lease.Some? {
        clientState := INIT_REBOOT;
        outcome := SendRequest(newXid);
        ScheduleTimerTO(WAIT_ACK);
        clientState := REBOOTING;
      } else {
        clientState := INIT;
        InitClient(newXid);
        outcome := Done;
      }
    }

    // T1 has gone off: ask the server that gave the lease.
    method StartRenewing(newXid: int) returns (outcome: Outcome)
      requires startTimer.Off? && InTime() && (lease.Some? ==> lease.value.InFuture())
      modifies this`clientState, this`timerTo, this`timerToKind, this`scheduled, this`xid, this`sent
      ensures clientState == RENEWING && outcome == (if lease.None? then NoLease else Done) && AwaitsFromNow()
      ensures outcome == Done ==> sent == old(sent) + [RequestFor(RENEWING, newXid, lease.value)]
      ensures LeaseInStep() && timerT1.Off? && address == Some(lease.value.ip) ==> Valid()
    {
      clientState := RENEWING;
      ScheduleTimerTO(WAIT_ACK);
      outcome := SendRequest(newXid);
    }

    // T2 has gone off in RENEWING: ask any server. No timer is left but the one for the response.
    method StartRebinding(newXid: int) returns (outcome: Outcome)
      requires startTimer.Off? && InTime() && (lease.Some? ==> lease.value.InFuture())
      modifies this`clientState, this`timerT1, this`timerT2, this`timerTo, this`leaseTimer
      modifies this`timerToKind, this`scheduled, this`xid, this`sent
      ensures clientState == REBINDING && outcome == if lease.None? then NoLease else Done
      ensures outcome == Done ==> sent == old(sent) + [RequestFor(REBINDING, newXid, lease.value)]
      ensures AwaitsFromNow() && leaseTimer.Off?
      ensures lease.Some? && address == Some(lease.value.ip) ==> Valid()
    {
      clientState := REBINDING;
      CancelTimers();
      outcome := SendRequest(newXid);
      ScheduleTimerTO(WAIT_ACK);
    }

    // A timer that has gone off. "T2 in wrong state" means that T2 went off outside RENEWING.
    method HandleTimer(kind: TimerKind, newXid: int) returns (outcome: Outcome)
      requires startTimer.Off? && InTime() && (lease.Some? ==> lease.value.InFuture())
      modifies this
      ensures now == old(now) && lease == old(lease)
      ensures outcome == T2InWrongState <==> kind == T2 && old(clientState) != RENEWING
      ensures outcome == T2InWrongState ==> clientState == old(clientState) && leaseTimer == old(leaseTimer)
      ensures outcome == UnknownTimer <==> kind == START_DHCP
      ensures outcome != InvalidState
      ensures kind in {WAIT_OFFER, WAIT_ACK, LEASE_TIMEOUT} ==> outcome == Done && Valid() && clientState == SELECTING
      ensures outcome == Done ==> AwaitsFromNow()
      ensures address == if kind == LEASE_TIMEOUT then None else old(address)
      ensures outcome == Done && clientState == SELECTING ==>
        sent == old(sent) + [Packet(DHCPDISCOVER, newXid, None, None, None, None)]
      ensures outcome == Done && clientState != SELECTING ==>
        lease.Some? && sent == old(sent) + [RequestFor(clientState, newXid, lease.value)]
      ensures kind == T1 && old(LeaseInStep() && address == Some(lease.value.ip) && timerT1.Off?) ==>
        outcome == Done && Valid() && clientState == RENEWING && leaseTimer == old(leaseTimer)
      ensures kind == T2 && old(clientState == RENEWING && lease.Some? && address == Some(lease.value.ip)) ==>
        outcome == Done && Valid() && clientState == REBINDING
    {
      outcome := Done;
      match kind {
        case WAIT_OFFER => InitClient(newXid);
        case WAIT_ACK => InitClient(newXid);
        case T1 => outcome := StartRenewing(newXid);
        case T2 =>
          if clientState == RENEWING {
            outcome := StartRebinding(newXid);
          } else {
            outcome := T2InWrongState;
          }
        case LEASE_TIMEOUT =>
          UnbindLease();
          clientState := INIT;
          InitClient(newXid);
        case START_DHCP =>
          outcome := UnknownTimer;
      }
    }

    // ---- the simulation ----

    // The pending timer that goes off next.
    function NextTimer(): TimerKind
      reads this
    {
      if timerT1.Before(timerT2) && timerT1.Before(timerTo) && timerT1.Before(leaseTimer) then T1
      else if timerT2.Before(timerTo) && timerT2.Before(leaseTimer) then T2
      else if timerTo.Before(leaseTimer) then timerToKind
      else LEASE_TIMEOUT
    }

    function TimerOf(kind: TimerKind): Timer
      reads this
    {
      match kind
      case T1 => timerT1
      case T2 => timerT2
      case LEASE_TIMEOUT => leaseTimer
      case START_DHCP => startTimer
      case _ => timerTo
    }

    // The next timer is pending, and no other pending timer is before it. In BOUND it is the first of the three that
    // were scheduled with the lease; in RENEWING the end of the lease comes first only if it is before T2.
    lemma NextTimerIsFirst()
      requires Valid()
      ensures TimerOf(NextTimer()).Pending? && NextTimer() != START_DHCP
      ensures clientState == BOUND ==>
        NextTimer() == if lease.value.RebindsFirst() then T2
          else if lease.value.EndsFirst() then LEASE_TIMEOUT else T1
      ensures clientState == RENEWING ==> NextTimer() in {T2, WAIT_ACK, LEASE_TIMEOUT}
      ensures NextTimer() == LEASE_TIMEOUT ==>
        clientState in {BOUND, RENEWING} && lease.value.leaseTime < lease.value.rebindTime
      ensures !timerT1.Before(TimerOf(NextTimer())) && !timerT2.Before(TimerOf(NextTimer()))
      ensures !timerTo.Before(TimerOf(NextTimer())) && !leaseTimer.Before(TimerOf(NextTimer()))
    {
    }

    // A timer that goes off is not pending any more.
    method TakeOff(kind: TimerKind)
      modifies this`timerT1, this`timerT2, this`timerTo, this`leaseTimer, this`startTimer
      ensures TimerOf(kind).Off?
      ensures kind != T1 ==> timerT1 == old(timerT1)
      ensures kind != T2 ==> timerT2 == old(timerT2)
      ensures kind != LEASE_TIMEOUT ==> leaseTimer == old(leaseTimer)
      ensures kind != START_DHCP ==> startTimer == old(startTimer)
      ensures kind != WAIT_OFFER && kind != WAIT_ACK ==> timerTo == old(timerTo)
    {
      match kind {
        case T1 => timerT1 := Off;
        case T2 => timerT2 := Off;
        case LEASE_TIMEOUT => leaseTimer := Off;
        case START_DHCP => startTimer := Off;
        case _ => timerTo := Off;
      }
    }

    // Time moves on to the first pending timer, and the state changes as Figure 5 of RFC 2131 says. The one error is
    // that T2 goes off in BOUND, exactly if it is the first of the three times of the lease; the lease timer goes off
    // only if the end of the lease is before T2. So neither happens to a lease whose times are in order.
    // Otherwise the first step after T1, be it T2 or a response timeout, drops the lease timer and leaves the address;
    // no other step does so. After T2 the client waits past the end of the lease exactly if T2 is that close to it.
    method Tick(newXid: int) returns (kind: TimerKind, outcome: Outcome)
      requires Valid()
      modifies this
      ensures outcome == if old(clientState) == BOUND && old(lease.value.RebindsFirst()) then T2InWrongState else Done
      ensures outcome == Done ==> Valid() && AwaitsFromNow()
      ensures lease == old(lease) && kind == old(NextTimer()) && now == old(TimerOf(NextTimer()).at)
      ensures old(lease.Some? && lease.value.InOrder()) ==> outcome == Done && kind != LEASE_TIMEOUT
      ensures kind == LEASE_TIMEOUT ==>
        old(clientState in {BOUND, RENEWING} && lease.value.leaseTime < lease.value.rebindTime)
          && clientState == SELECTING && address == None
      ensures old(clientState) == BOUND && outcome == Done && kind != LEASE_TIMEOUT ==>
        kind == T1 && clientState == RENEWING
      ensures old(clientState) == RENEWING ==>
        kind in {T2, WAIT_ACK, LEASE_TIMEOUT} && clientState == if kind == T2 then REBINDING else SELECTING
      ensures old(clientState) == SELECTING ==> kind == WAIT_OFFER && clientState == SELECTING
      ensures old(clientState) in {REQUESTING, REBOOTING, REBINDING} ==> kind == WAIT_ACK && clientState == SELECTING
      ensures outcome == Done && clientState == SELECTING ==>
        sent == old(sent) + [Packet(DHCPDISCOVER, newXid, None, None, None, None)]
      ensures outcome == Done && clientState != SELECTING ==>
        sent == old(sent) + [RequestFor(clientState, newXid, lease.value)]
      ensures old(clientState) in {RENEWING, REBINDING} && clientState == SELECTING && kind != LEASE_TIMEOUT ==>
        address == Some(old(lease.value.ip)) && leaseTimer.Off?
      ensures Unwatched() && !old(Unwatched()) <==> old(clientState) == RENEWING && kind != LEASE_TIMEOUT
      ensures Unwatched() && !old(Unwatched()) <==> old(leaseTimer).Pending? && leaseTimer.Off? && address.Some?
      ensures old(clientState) == RENEWING && kind == T2 ==>
        (old(leaseTimer).at < timerTo.at <==> lease.value.leaseTime - lease.value.rebindTime < responseTimeout)
    {
      NextTimerIsFirst();
      kind := NextTimer();
      now := TimerOf(kind).at;
      TakeOff(kind);
      outcome := HandleTimer(kind, newXid);
    }

    // Time moves on without reaching a timer.
    method Wait(until: int)
      requires Valid() && now <= until <= TimerOf(NextTimer()).at
      modifies this`now
      ensures Valid() && now == until
    {
      now := until;
    }
  }
}
