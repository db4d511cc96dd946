/**
 * The FujiNet block device: requests with retries over a link whose slave echoes tags, READ_MULTI runs of
 * at most sixteen sectors, and one PUT per sector.
 */
module FujiBlkdev {
  import opened Basics
  import opened Slip
  import opened FujiFrame
  import opened FujiCodec
  import opened DiskImage

  const MAGIC_REQ: byte := 0xFB
  const MAGIC_RSP: byte := 0xFA
  const HDR: nat := 4
  const REQ_MAX: nat := 2048
  const RETRIES: nat := 3
  const DEVICE_DISK: nat := 0x31

  const ACK: byte := 0x06
  const READ_MULTI: byte := 0x72
  const PUT: byte := 0x50

  const WINDOW: nat := 0x100_0000

  // ---------------------------------------------------------------- what the slave makes of a request

  /** `count` in the top byte, the sector below. */
  function RunParam(sector: nat, count: nat): (param: nat)
    requires count < 0x100
    ensures param < 0x1_0000_0000 && param / WINDOW == count && param % WINDOW == sector % WINDOW
  {
    count * WINDOW + sector % WINDOW
  }

  predicate IsRead(disk: map<nat, Sector>, request: Frame) {
    && request.command == 0x72 && |request.params| == 1 && request.params[0] / WINDOW <= MULTI_SECTORS
    && Has(disk, request.params[0] % WINDOW, request.params[0] / WINDOW)
  }

  predicate IsPut(disk: map<nat, Sector>, request: Frame) {
    request.command == 0x50 && |request.params| == 1 && request.params[0] in disk && |request.payload| == SECTOR
  }

  /** The disk when a request has been carried out. */
  function Carried(disk: map<nat, Sector>, request: Frame): map<nat, Sector> {
    if IsPut(disk, request) then disk[request.params[0] := request.payload] else disk
  }

  /** What an acknowledgement of a request brings. */
  function Reply(disk: map<nat, Sector>, request: Frame): seq<byte> {
    if IsRead(disk, request) then Image(disk, request.params[0] % WINDOW, request.params[0] / WINDOW) else []
  }

  /** The disks behind the link, each under its own device number. */
  type Disks = map<byte, map<nat, Sector>>

  /** The disk of a device; a device that is not there has no sectors. */
  function DiskOf(disks: Disks, device: byte): map<nat, Sector> {
    if device in disks then disks[device] else map[]
  }

  /** A request is for the disk of its device. */
  predicate CanDo(disks: Disks, request: Frame) {
    IsRead(DiskOf(disks, request.device), request) || IsPut(DiskOf(disks, request.device), request)
  }

  function Effect(disks: Disks, request: Frame): Disks {
    if IsPut(DiskOf(disks, request.device), request) then
      disks[request.device := Carried(disks[request.device], request)]
    else disks
  }

  function Answer(disks: Disks, request: Frame): seq<byte> {
    Reply(DiskOf(disks, request.device), request)
  }

  lemma CarriedTwice(disk: map<nat, Sector>, request: Frame)
    ensures Carried(Carried(disk, request), request) == Carried(disk, request)
    ensures IsRead(disk, request) <==> IsRead(Carried(disk, request), request)
    ensures IsPut(disk, request) <==> IsPut(Carried(disk, request), request)
    ensures Reply(Carried(disk, request), request) == Reply(disk, request)
  {
  }

  /** Carrying a request out once more changes nothing. */
  lemma EffectTwice(disks: Disks, request: Frame)
    ensures Effect(Effect(disks, request), request) == Effect(disks, request)
    ensures CanDo(disks, request) <==> CanDo(Effect(disks, request), request)
    ensures Answer(Effect(disks, request), request) == Answer(disks, request)
  {
    CarriedTwice(DiskOf(disks, request.device), request);
    assert DiskOf(Effect(disks, request), request.device) == Carried(DiskOf(disks, request.device), request);
  }

  // ---------------------------------------------------------------- tags

  /** A reply to an attempt `age` before carries another tag exactly unless `age` is a multiple of 256. */
  lemma TagTells(attempts: nat, age: nat)
    ensures (attempts % 0x100 - age) % 0x100 == (attempts - age) % 0x100
    ensures (attempts - age) % 0x100 != attempts % 0x100 <==> age % 0x100 != 0
  {
    var q, r := age / 0x100, age % 0x100;
    var p, t := attempts / 0x100, attempts % 0x100;
    assert attempts - age == (p - q) * 0x100 + (t - r);
    assert t - age == (0 - q) * 0x100 + (t - r);
  }

  /** Header of a reply transaction. */
  function ReplyBytes(magic: byte, tag: byte, frame: seq<byte>): (bytes: seq<byte>)
    ensures |bytes| == HDR + |frame| && bytes[HDR..] == frame && bytes[0] == magic && bytes[3] == tag
    ensures |frame| < 0x1_0000 ==> FrameLength(bytes) == |frame|
  {
    var header: seq<byte> := [magic, |frame| % 0x100, |frame| / 0x100 % 0x100, tag];
    header + frame
  }

  /** The length a header announces. */
  function FrameLength(bytes: seq<byte>): nat
    requires |bytes| >= HDR
  {
    bytes[1] as nat + 0x100 * bytes[2] as nat
  }

  /** An acknowledgement says the request was carried out and brings what it asked for; a refusal says nothing. */
  ghost predicate Truthful(reply: Frame, was: Disks, now: Disks, request: Frame) {
    reply.command == 0x06 ==>
      CanDo(was, request) && now == Effect(was, request) && reply.payload == Answer(was, request)
  }

  lemma ReplyFrame(device: byte, command: byte, payload: seq<byte>)
    requires |payload| <= MULTI_SECTORS * SECTOR
    ensures var frame := Encoded(Packet(device, command, 0, [], payload));
            0 < |frame| <= ENC_MAX && ParsedWire(frame, DEC_MAX) == Some(Frame(device, command, [], payload))
  {
    var packet := Packet(device, command, 0, [], payload);
    PacketFits(packet);
    RequestRoundTrip([], device, command, None, payload, [], DEC_MAX);
    assert [] + Encoded(packet) + [] == Encoded(packet);
  }

  /**
   * The other end of the link, with its own idea of the command codes.  It may stay silent, refuse, garble, or
   * still offer a reply to an earlier attempt.
   */
  class Slave {
    var disks: Disks
    var armed: Option<seq<byte>>
    ghost var meant: Frame
    // how often something has gone wrong on the link so far
    ghost var faults: nat

    constructor (disks: Disks)
      ensures this.disks == disks && Valid()
    {
      this.disks := disks;
      armed := None;
      meant := Frame(0, 0x15, [], []);
      faults := 0;
    }

    /** The armed reply is the encoding of a frame. */
    ghost predicate Valid()
      reads this
    {
      armed.Some? ==> |armed.value| <= ENC_MAX && ParsedWire(armed.value, DEC_MAX) == Some(meant)
    }

    /** An acknowledgement waits to be fetched. */
    ghost predicate Acknowledging()
      reads this
    {
      armed.Some? && |armed.value| > 0 && meant.command == 0x06
    }

    /** Whether the slave is ready to be sent a request in time. */
    method Ready() returns (ready: bool)
      modifies this`faults
      ensures faults == old(faults) + if ready then 0 else 1
    {
      var there: bool := *;
      ready := there;
      faults := if there then faults else faults + 1;
    }

    /** Hears one request transaction; it may carry the request out, and it may arm a reply. */
    method Hear(bytes: seq<byte>, ghost request: Frame)
      requires |bytes| >= HDR && HDR + FrameLength(bytes) <= |bytes| && bytes[0] == 0xFB
      requires ParsedWire(bytes[HDR..HDR + FrameLength(bytes)], DEC_MAX) == Some(request)
      modifies this
      ensures Valid() && (disks == old(disks) || disks == Effect(old(disks), request))
      ensures armed.Some? ==> Truthful(meant, old(disks), disks, request)
      ensures old(faults) <= faults <= old(faults) + 1
      ensures CanDo(old(disks), request) && faults == old(faults) ==> Acknowledging()
    {
      armed := None;
      var obeys: bool := *;
      var answers: bool := *;
      var frame := ParsedWire(bytes[HDR..HDR + FrameLength(bytes)], DEC_MAX).value;
      if !obeys || !answers {
        faults := faults + 1;
      }
      if obeys && CanDo(disks, frame) {
        var payload := Answer(disks, frame);
        disks := Effect(disks, frame);
        if answers {
          Arm(frame.device, 0x06, payload);
        }
      } else if answers {
        Arm(frame.device, 0x15, []);
      }
    }

    method Arm(device: byte, command: byte, payload: seq<byte>)
      requires |payload| <= MULTI_SECTORS * SECTOR
      modifies this`armed, this`meant
      ensures armed.Some? && |armed.value| > 0 && meant == Frame(device, command, [], payload) && Valid()
    {
      ReplyFrame(device, command, payload);
      armed := Some(Encoded(Packet(device, command, 0, [], payload)));
      meant := Frame(device, command, [], payload);
    }

    /** Offers one reply: what is armed, or, and that is a fault, nothing, junk, something stale or garbled. */
    method Offer(ghost attempts: nat, tag: byte) returns (bytes: Option<seq<byte>>)
      requires Valid() && tag == attempts % 0x100
      modifies this`faults
      ensures bytes.Some? ==> |bytes.value| >= HDR
      ensures bytes.Some? && bytes.value[0] == 0xFA && bytes.value[3] == tag ==>
                FrameLength(bytes.value) == |bytes.value| - HDR && Honest(bytes.value[HDR..])
      ensures old(faults) <= faults <= old(faults) + 1
      ensures armed.Some? && faults == old(faults) ==>
                && bytes.Some? && bytes.value[0] == 0xFA && bytes.value[3] == tag
                && bytes.value[HDR..] == armed.value
    {
      bytes := None;
      var what: int := *;
      var frame: seq<byte> := *;
      var other: byte := *;
      var age: int := *;
      if what == 0 && armed.Some? {
        bytes := Some(ReplyBytes(0xFA, tag, armed.value));
        return;
      }
      faults := faults + 1;
      if what == 1 && other != 0xFA {
        bytes := Some(ReplyBytes(other, 0, frame));
      } else if what == 2 && 0 < age < 0x100 {
        TagTells(attempts, age);
        bytes := Some(ReplyBytes(0xFA, (tag - age) % 0x100, frame));
      } else if what == 3 && |frame| < 0x1_0000 && ParsedWire(frame, DEC_MAX) == None {
        bytes := Some(ReplyBytes(0xFA, tag, frame));
      }
    }

    /** A frame under the right tag is the armed one, or does not parse. */
    ghost predicate Honest(frame: seq<byte>)
      reads this
    {
      armed == Some(frame) || ParsedWire(frame, DEC_MAX) == None
    }
  }

  // ---------------------------------------------------------------- the master

  class Link {
    const slave: Slave
    const framer: Framer
    const tx: array<byte>
    const rx: array<byte>
    const scratch: array<byte>
    const frame: array<byte>
    var tag: byte
    // attempts ever made; the tag is this modulo 256
    ghost var attempts: nat
    // the runs of the read at hand
    ghost var runs: seq<(nat, nat)>

    predicate Buffers() {
      && tx.Length == REQ_MAX && rx.Length == ENC_MAX && scratch.Length == DEC_MAX && frame.Length == ENC_MAX
      && tx != rx && tx != scratch && tx != frame && rx != scratch && rx != frame && scratch != frame
      && framer.Valid() && framer.dec != frame && framer.dec != tx && framer.dec != rx && framer.dec != scratch
    }

    ghost predicate Valid()
      reads this, slave
    {
      Buffers() && slave.Valid() && tag == attempts % 0x100
    }

    constructor (slave: Slave)
      requires slave.Valid()
      ensures Valid() && this.slave == slave && attempts == 0
      ensures fresh(tx) && fresh(rx) && fresh(scratch) && fresh(frame) && fresh(framer)
    {
      this.slave := slave;
      framer := new Framer();
      tx := new byte[REQ_MAX];
      rx := new byte[ENC_MAX];
      scratch := new byte[DEC_MAX];
      frame := new byte[ENC_MAX];
      tag, attempts, runs := 0, 0, [];
    }

    /** Sends one request under DRDY; false when it is too long or the slave is not there, and then it heard nothing. */
    method SendRequest(len: nat, ghost request: Frame) returns (ok: bool)
      requires Valid() && 0 < len <= ENC_MAX && ParsedWire(frame[..len], DEC_MAX) == Some(request)
      modifies tx, slave
      ensures Valid() && (!ok ==> slave.disks == old(slave.disks))
      ensures ok ==>
                && (slave.disks == old(slave.disks) || slave.disks == Effect(old(slave.disks), request))
                && (slave.armed.Some? ==> Truthful(slave.meant, old(slave.disks), slave.disks, request))
      ensures slave.faults >= old(slave.faults)
      ensures slave.faults == old(slave.faults) && Carries(len) ==>
                ok && (CanDo(old(slave.disks), request) ==> slave.Acknowledging())
    {
      var total := (HDR + len + 3) / 4 * 4;
      if len == 0 || total > REQ_MAX { return false; }
      LayOut(len, total);
      var ready := slave.Ready();
      if !ready { return false; }
      slave.Hear(tx[..total], request);
      ok := true;
    }

    /** A request of this length fits the slave's buffer. */
    predicate Carries(len: nat) {
      (HDR + len + 3) / 4 * 4 <= REQ_MAX
    }

    /** Header, frame and padding, as the slave will take them apart. */
    method LayOut(len: nat, total: nat)
      requires Valid() && len <= ENC_MAX && HDR + len <= total <= REQ_MAX
      modifies tx
      ensures tx[0] == MAGIC_REQ && tx[3] == tag && FrameLength(tx[..total]) == len
      ensures tx[..total][HDR..HDR + len] == frame[..len]
    {
      ghost var wire := ReplyBytes(MAGIC_REQ, tag, frame[..len]);
      tx[0] := MAGIC_REQ;
      tx[1] := len % 0x100;
      tx[2] := len / 0x100 % 0x100;
      tx[3] := tag;
      Copy(frame, len, tx, HDR);
      assert tx[..HDR + len] == wire;
      for i := HDR + len to total
        invariant tx[..HDR + len] == wire
      {
        tx[i] := 0;
      }
      assert tx[..total][..HDR + len] == wire;
      Prefixed(tx[..total], wire);
    }

    /** Takes one reply; only one that names this attempt's tag and fits is let in. */
    method RecvReply() returns (len: nat)
      requires Valid()
      modifies rx, slave`faults
      ensures Valid() && len <= ENC_MAX && (len > 0 ==> slave.Honest(rx[..len]))
      ensures slave.faults >= old(slave.faults)
      ensures slave.Acknowledging() && slave.faults == old(slave.faults) ==>
                len > 0 && slave.armed == Some(rx[..len])
    {
      var bytes := slave.Offer(attempts, tag);
      if bytes.None? { return 0; }
      var wire := bytes.value;
      len := FrameLength(wire);
      if wire[0] != MAGIC_RSP || wire[3] != tag || len == 0 || len > ENC_MAX { return 0; }
      for i := 0 to len
        modifies rx
        invariant rx[..i] == wire[HDR..HDR + i]
      {
        rx[i] := wire[HDR + i];
      }
      assert rx[..len] == wire[HDR..];
    }

    /**
     * A prebuilt request, tried again until it is acknowledged.  An acknowledgement taken is one of this very
     * request, however often it was sent; the disks are as if it had been carried out at most once.  It is only
     * given up after a fault in every attempt, if the device can do it at all.
     */
    method TransactFrame(len: nat, out: array?<byte>, at: nat, cap: nat, retries: nat, ghost request: Frame)
      returns (ok: bool, got: nat)
      requires Valid() && len <= ENC_MAX && (len > 0 ==> ParsedWire(frame[..len], DEC_MAX) == Some(request))
      requires out != null ==> at + cap <= out.Length && Apart(out)
      modifies this`tag, this`attempts, tx, rx, scratch, slave
      modifies if out == null then {} else {out}
      ensures Valid() && (slave.disks == old(slave.disks) || slave.disks == Effect(old(slave.disks), request))
      ensures ok ==> CanDo(old(slave.disks), request) && slave.disks == Effect(old(slave.disks), request)
      ensures ok && out != null ==>
                var payload := Answer(old(slave.disks), request);
                && got == (if |payload| < cap then |payload| else cap) && out[at..at + got] == payload[..got]
      ensures out != null ==> out[..at] == old(out[..at])
      ensures !ok && len > 0 && Carries(len) && CanDo(old(slave.disks), request) ==>
                slave.faults >= old(slave.faults) + retries
      ensures slave.faults >= old(slave.faults)
    {
      ok, got := false, 0;
      if len == 0 { return; }
      var payload: Option<seq<byte>> := None;
      for attempt := 0 to retries
        modifies this`tag, this`attempts, tx, rx, scratch, slave
        invariant Valid() && payload == None && frame[..len] == old(frame[..len])
        invariant slave.disks == old(slave.disks) || slave.disks == Effect(old(slave.disks), request)
        invariant slave.faults >= old(slave.faults)
        invariant Carries(len) && CanDo(old(slave.disks), request) ==> slave.faults >= old(slave.faults) + attempt
      {
        EffectTwice(old(slave.disks), request);
        payload := Attempt(len, request);
        if payload.Some? { break; }
      }
      if payload.None? { return; }
      ok := true;
      if out != null {
        got := Deliver(payload.value, out, at, cap);
      }
    }

    /** As much of a payload as fits, at its place in the caller's buffer. */
    method Deliver(payload: seq<byte>, out: array<byte>, at: nat, cap: nat) returns (got: nat)
      requires at + cap <= out.Length
      modifies out
      ensures got == (if |payload| < cap then |payload| else cap) && out[at..at + got] == payload[..got]
      ensures out[..at] == old(out[..at])
    {
      got := if |payload| < cap then |payload| else cap;
      for i := 0 to got
        invariant out[at..at + i] == payload[..i] && out[..at] == old(out[..at])
      {
        out[at + i] := payload[i];
      }
    }

    /** A request with one parameter, built and run. */
    method Transact(device: byte, command: byte, param: nat, payload: array?<byte>, payloadLen: nat,
                    out: array?<byte>, at: nat, cap: nat, retries: nat) returns (ok: bool, got: nat)
      requires Valid() && param < 0x1_0000_0000 && payloadLen <= SECTOR
      requires payload != null ==> payloadLen <= payload.Length && Apart(payload)
      requires out != null ==> at + cap <= out.Length && Apart(out)
      modifies this`tag, this`attempts, tx, rx, scratch, frame, framer.dec, slave
      modifies if out == null then {} else {out}
      ensures var request := Frame(device, command, [param], old(Given(payload, payloadLen)));
              && (slave.disks == old(slave.disks) || slave.disks == Effect(old(slave.disks), request))
              && (ok ==> CanDo(old(slave.disks), request) && slave.disks == Effect(old(slave.disks), request))
              && (ok && out != null ==>
                    var reply := Answer(old(slave.disks), request);
                    got == (if |reply| < cap then |reply| else cap) && out[at..at + got] == reply[..got])
              && (!ok && CanDo(old(slave.disks), request) ==> slave.faults >= old(slave.faults) + retries)
      ensures slave.faults >= old(slave.faults)
      ensures Valid() && (out != null ==> out[..at] == old(out[..at]))
    {
      ghost var bytes := Given(payload, payloadLen);
      ghost var request := Frame(device, command, [param], bytes);
      var len := framer.BuildFrame(device, command, Some(param), payload, payloadLen, frame, ENC_MAX);
      RequestRoundTrip([], device, command, Some(param), bytes, [], DEC_MAX);
      ghost var packet := Packet(device, command, 7, Le32(param), bytes);
      assert [] + Encoded(packet) + [] == Encoded(packet);
      RequestFits(packet);
      ok, got := TransactFrame(len, out, at, cap, retries, request);
    }

    /** A request with one parameter and at most a sector fits the slave's buffer. */
    lemma RequestFits(packet: seq<byte>)
      requires |packet| <= HEADER + 4 + SECTOR
      ensures 0 < |Encoded(packet)| <= ENC_MAX && Carries(|Encoded(packet)|)
    {
      EncodedSize(packet);
    }

    /**
     * Reads `n` sectors from the disk of one target, in runs that cover them.  True: the buffer holds what the
     * runs bring.  No disk ever changes.  False: a run went wrong three times over, or is not on the disk.
     */
    method ReadSectors(target: byte, lba: nat, buf: array<byte>, n: nat) returns (ok: bool)
      requires Valid() && n * SECTOR <= buf.Length && Apart(buf)
      modifies this`tag, this`attempts, this`runs, tx, rx, scratch, frame, framer.dec, slave, buf
      ensures Valid() && slave.disks == old(slave.disks) && Sixteens(runs)
      ensures ok ==>
                var disk := DiskOf(slave.disks, (0x31 + target) % 0x100);
                && Covers(runs, lba, n) && Served(disk, runs)
                && buf[..n * SECTOR] == RunsImage(disk, runs)
      ensures !ok ==>
                || slave.faults >= old(slave.faults) + 3
                || Lacking(DiskOf(slave.disks, (0x31 + target) % 0x100), lba, n)
    {
      var device: byte := (DEVICE_DISK + target) % 0x100;
      ghost var disk := DiskOf(slave.disks, device);
      var done := 0;
      runs := [];
      while done < n
        invariant done <= n && Valid() && slave.disks == old(slave.disks) && slave.faults >= old(slave.faults)
        invariant Fetched(disk, runs, lba, done, done < n, buf[..done * SECTOR])
        decreases n - done
      {
        var count := if n - done > MULTI_SECTORS then MULTI_SECTORS else n - done;
        ok := ReadNext(device, lba, done, count, done + count < n, buf);
        if !ok {
          assert slave.faults >= old(slave.faults) + 3 || Missing(disk, lba, n, lba + done, count);
          return;
        }
        done := done + count;
      }
      ok := true;
    }

    /** The next run of a read, behind `done` sectors. */
    method ReadNext(device: byte, lba: nat, done: nat, count: nat, ghost more: bool, buf: array<byte>)
      returns (ok: bool)
      requires Valid() && 0 < count <= MULTI_SECTORS && (done + count) * SECTOR <= buf.Length && Apart(buf)
      requires Fetched(DiskOf(slave.disks, device), runs, lba, done, true, buf[..done * SECTOR])
      requires more ==> count == MULTI_SECTORS
      modifies this`tag, this`attempts, this`runs, tx, rx, scratch, frame, framer.dec, slave, buf
      ensures Valid() && slave.disks == old(slave.disks) && slave.faults >= old(slave.faults)
      ensures if ok then
                Fetched(DiskOf(slave.disks, device), runs, lba, done + count, more, buf[..(done + count) * SECTOR])
              else runs == old(runs)
      ensures !ok ==>
                || slave.faults >= old(slave.faults) + 3
                || !Has(DiskOf(slave.disks, device), (lba + done) % WINDOW, count)
    {
      ghost var before, disk := buf[..done * SECTOR], DiskOf(slave.disks, device);
      ok := ReadRun(device, lba + done, count, buf, done * SECTOR);
      if ok {
        FetchedMore(disk, runs, lba, done, before, count, more);
        runs := runs + [(lba + done, count)];
        RunPlaced(buf[..], done, count);
      }
    }

    /** One READ_MULTI into the buffer at `at`. */
    method ReadRun(device: byte, sector: nat, count: nat, buf: array<byte>, at: nat) returns (ok: bool)
      requires Valid() && 0 < count <= MULTI_SECTORS && at + count * SECTOR <= buf.Length && Apart(buf)
      modifies this`tag, this`attempts, tx, rx, scratch, frame, framer.dec, slave, buf
      ensures Valid() && slave.disks == old(slave.disks) && buf[..at] == old(buf[..at])
      ensures ok ==>
                var disk := DiskOf(slave.disks, device);
                && Has(disk, sector % WINDOW, count)
                && buf[at..at + count * SECTOR] == Image(disk, sector % WINDOW, count)
      ensures slave.faults >= old(slave.faults)
      ensures !ok ==>
                || slave.faults >= old(slave.faults) + 3
                || !Has(DiskOf(slave.disks, device), sector % WINDOW, count)
    {
      var param := RunParam(sector, count);
      var want := count * SECTOR;
      var got;
      ReadRequest(DiskOf(slave.disks, device), device, sector, count);
      ok, got := Transact(device, READ_MULTI, param, null, 0, buf, at, want, RETRIES);
      ok := ok && got == want;
    }

    /**
     * Writes `n` sectors to the disk of one target, one PUT each; no other disk changes.  True: all are stored.
     * False: those up to the one that failed are, and that one may be, its acknowledgement lost.
     */
    method WriteSectors(target: byte, lba: nat, buf: array<byte>, n: nat) returns (ok: bool, ghost k: nat)
      requires Valid() && n * SECTOR <= buf.Length && Apart(buf)
      modifies this`tag, this`attempts, tx, rx, scratch, frame, framer.dec, slave
      ensures Valid() && k <= n && OneDisk(old(slave.disks), slave.disks, (0x31 + target) % 0x100)
      ensures DiskOf(slave.disks, (0x31 + target) % 0x100)
              == PutAll(DiskOf(old(slave.disks), (0x31 + target) % 0x100), lba, buf[..n * SECTOR], k)
      ensures ok ==>
                k == n && forall i :: 0 <= i < n ==> Wrapped(lba, i) in DiskOf(slave.disks, (0x31 + target) % 0x100)
      ensures !ok ==>
                || slave.faults >= old(slave.faults) + 3
                || exists i :: 0 <= i < n && Wrapped(lba, i) !in DiskOf(slave.disks, (0x31 + target) % 0x100)
    {
      var device: byte := (DEVICE_DISK + target) % 0x100;
      ghost var bytes, was := buf[..n * SECTOR], DiskOf(slave.disks, device);
      k := 0;
      var s := 0;
      while s < n
        invariant s == k <= n && Valid() && buf[..n * SECTOR] == bytes && slave.faults >= old(slave.faults)
        invariant OneDisk(old(slave.disks), slave.disks, device)
        invariant forall i :: 0 <= i < s ==> Wrapped(lba, i) in DiskOf(slave.disks, device)
        invariant DiskOf(slave.disks, device) == PutAll(was, lba, bytes, k)
        decreases n - s
      {
        ghost var before := DiskOf(slave.disks, device);
        ok := PutOne(device, Wrapped(lba, s), buf, s * SECTOR);
        SectorWithin(buf[..], n, s);
        if ok || DiskOf(slave.disks, device) != before { k := s + 1; }
        if !ok { return; }
        s := s + 1;
      }
      ok := true;
    }

    /** One PUT of the 512 bytes at `at`. */
    method PutOne(device: byte, lba: nat, buf: array<byte>, at: nat) returns (ok: bool)
      requires Valid() && lba < 0x1_0000_0000 && at + SECTOR <= buf.Length && Apart(buf)
      modifies this`tag, this`attempts, tx, rx, scratch, frame, framer.dec, slave
      ensures Valid() && OneDisk(old(slave.disks), slave.disks, device)
      ensures var was, now := DiskOf(old(slave.disks), device), DiskOf(slave.disks, device);
              && now.Keys == was.Keys && (ok ==> lba in now)
              && (ok ==> now == was[lba := buf[at..at + SECTOR]])
              && (!ok ==> now == was || now == was[lba := buf[at..at + SECTOR]])
      ensures slave.faults >= old(slave.faults)
      ensures !ok ==> slave.faults >= old(slave.faults) + 3 || lba !in DiskOf(slave.disks, device)
    {
      var sector := new byte[SECTOR];
      for j := 0 to SECTOR
        modifies sector
        invariant sector[..j] == buf[at..at + j]
      {
        sector[j] := buf[at + j];
      }
      assert sector[..SECTOR] == buf[at..at + SECTOR];
      PutRequest(DiskOf(slave.disks, device), device, lba, buf[at..at + SECTOR]);
      var got;
      ok, got := Transact(device, PUT, lba, sector, SECTOR, null, 0, 0, RETRIES);
    }

    predicate Apart(out: array<byte>) {
      out != tx && out != rx && out != scratch && out != frame && out != framer.dec
    }

    /** One attempt under a new tag; it fails for cause only. */
    method Attempt(len: nat, ghost request: Frame) returns (payload: Option<seq<byte>>)
      requires Valid() && 0 < len <= ENC_MAX && ParsedWire(frame[..len], DEC_MAX) == Some(request)
      modifies this`tag, this`attempts, tx, rx, scratch, slave
      ensures Valid() && attempts == old(attempts) + 1
      ensures slave.disks == old(slave.disks) || slave.disks == Effect(old(slave.disks), request)
      ensures payload.Some? ==>
                && CanDo(old(slave.disks), request) && slave.disks == Effect(old(slave.disks), request)
                && payload.value == Answer(old(slave.disks), request)
      ensures slave.faults >= old(slave.faults)
      ensures payload.None? && Carries(len) && CanDo(old(slave.disks), request) ==> slave.faults > old(slave.faults)
    {
      payload := None;
      NextTag();
      var ok := SendRequest(len, request);
      if !ok { return; }
      payload := FetchReply();
    }

    method NextTag()
      requires Valid()
      modifies this`tag, this`attempts
      ensures Valid() && attempts == old(attempts) + 1
    {
      tag := (tag + 1) % 0x100;
      attempts := attempts + 1;
    }

    /** The payload of an acknowledgement, if there is one and it comes through. */
    method FetchReply() returns (payload: Option<seq<byte>>)
      requires Valid()
      modifies rx, scratch, slave`faults
      ensures Valid() && slave.faults >= old(slave.faults)
      ensures payload.Some? ==>
                slave.armed.Some? && slave.meant.command == 0x06 && payload.value == slave.meant.payload
      ensures payload.None? && slave.Acknowledging() ==> slave.faults > old(slave.faults)
    {
      payload := None;
      var n := RecvReply();
      if n == 0 { return; }
      var reply := Understand(n);
      if reply.None? || reply.value.command != ACK { return; }
      payload := Some(reply.value.payload);
    }

    /** Whatever of a reply can be parsed is what the slave meant. */
    method Understand(n: nat) returns (reply: Option<Frame>)
      requires Valid() && 0 < n <= ENC_MAX && slave.Honest(rx[..n])
      modifies scratch
      ensures reply.Some? ==> slave.armed.Some? && reply.value == slave.meant
      ensures slave.armed == Some(rx[..n]) ==> reply.Some?
    {
      reply := ParseFrame(rx, n, scratch, DEC_MAX);
    }
  }

  // ---------------------------------------------------------------- runs of sectors

  /** No disk but that of one device has changed. */
  ghost predicate OneDisk(was: Disks, now: Disks, device: byte) {
    now.Keys == was.Keys && forall d | d in was && d != device :: now[d] == was[d]
  }

  /** A run of the range that is not on the disk under the number that goes over the wire. */
  predicate Missing(disk: map<nat, Sector>, lba: nat, n: nat, s: nat, c: nat) {
    lba <= s && 1 <= c <= MULTI_SECTORS && s + c <= lba + n && !Has(disk, s % WINDOW, c)
  }

  ghost predicate Lacking(disk: map<nat, Sector>, lba: nat, n: nat) {
    exists s, c :: Missing(disk, lba, n, s, c)
  }

  lemma ReadRequest(disk: map<nat, Sector>, device: byte, sector: nat, count: nat)
    requires count <= MULTI_SECTORS
    ensures var request := Frame(device, READ_MULTI, [RunParam(sector, count)], []);
            && Carried(disk, request) == disk && !IsPut(disk, request)
            && (IsRead(disk, request) <==> Has(disk, sector % WINDOW, count))
            && (IsRead(disk, request) ==> Reply(disk, request) == Image(disk, sector % WINDOW, count))
  {
  }

  lemma PutRequest(disk: map<nat, Sector>, device: byte, sector: nat, payload: Sector)
    ensures var request := Frame(device, PUT, [sector], payload);
            && Carried(disk, request) == (if sector in disk then disk[sector := payload] else disk)
            && !IsRead(disk, request) && (IsPut(disk, request) <==> sector in disk)
  {
  }

  /** Sector `i` of a range: sector numbers are 32 bits wide. */
  function Wrapped(lba: nat, i: nat): (sector: nat)
    ensures sector < 0x1_0000_0000
  {
    (lba + i) % 0x1_0000_0000
  }

  /** The disk when the first `k` sectors of a write have been put. */
  function PutAll(disk: map<nat, Sector>, lba: nat, bytes: seq<byte>, k: nat): map<nat, Sector>
    requires k * SECTOR <= |bytes|
  {
    if k == 0 then disk else PutAll(disk, lba, bytes, k - 1)[Wrapped(lba, k - 1) := SectorOf(bytes, k - 1)]
  }

  lemma RunPlaced(bytes: seq<byte>, done: nat, count: nat)
    requires (done + count) * SECTOR <= |bytes|
    ensures done * SECTOR + count * SECTOR == (done + count) * SECTOR
    ensures bytes[..(done + count) * SECTOR]
            == bytes[..done * SECTOR] + bytes[done * SECTOR..done * SECTOR + count * SECTOR]
  {
  }

  lemma SectorWithin(bytes: seq<byte>, n: nat, s: nat)
    requires s < n && n * SECTOR <= |bytes|
    ensures (s + 1) * SECTOR <= n * SECTOR
    ensures bytes[s * SECTOR..s * SECTOR + SECTOR] == SectorOf(bytes[..n * SECTOR], s)
  {
  }

  /** In a range that does not wrap those are the sectors of the range, in order. */
  lemma {:induction false} PutAllStores(disk: map<nat, Sector>, lba: nat, bytes: seq<byte>, k: nat)
    requires k * SECTOR <= |bytes| && lba + k <= 0x1_0000_0000
    ensures PutAll(disk, lba, bytes, k) == Stored(disk, lba, bytes, k)
  {
    if k > 0 {
      PutAllStores(disk, lba, bytes, k - 1);
    }
  }

  /** Runs that follow one another without a gap and cover `n` sectors from `lba` on. */
  ghost predicate Covers(runs: seq<(nat, nat)>, lba: nat, n: nat) {
    if runs == [] then n == 0
    else
      var last := runs[|runs| - 1];
      last.1 <= n && last.0 == lba + (n - last.1) && Covers(runs[..|runs| - 1], lba, n - last.1)
  }

  /** Sixteen sectors each, but for the last run, which has at least one. */
  predicate Sixteens(runs: seq<(nat, nat)>) {
    && (forall k :: 0 <= k < |runs| ==> 1 <= runs[k].1 <= 16)
    && (forall k :: 0 <= k < |runs| - 1 ==> runs[k].1 == 16)
  }

  /** Each run starts where the one before ends, the first at `lba`; the last ends the range. */
  lemma {:induction false} CoversInOrder(runs: seq<(nat, nat)>, lba: nat, n: nat)
    requires Covers(runs, lba, n)
    ensures forall k :: 0 <= k < |runs| - 1 ==> runs[k].0 + runs[k].1 == runs[k + 1].0
    ensures forall k :: 0 <= k < |runs| ==> lba <= runs[k].0 && runs[k].0 + runs[k].1 <= lba + n
    ensures runs != [] ==> runs[0].0 == lba && runs[|runs| - 1].0 + runs[|runs| - 1].1 == lba + n
    decreases |runs|
  {
    if runs != [] {
      var init := runs[..|runs| - 1];
      CoversInOrder(init, lba, n - runs[|runs| - 1].1);
      assert forall k :: 0 <= k < |init| ==> init[k] == runs[k];
    }
  }

  predicate Served(disk: map<nat, Sector>, runs: seq<(nat, nat)>) {
    forall k :: 0 <= k < |runs| ==> Has(disk, runs[k].0 % WINDOW, runs[k].1)
  }

  /** The bytes that requests for these runs bring: only 24 bits of a run's first sector go over the wire. */
  function RunsImage(disk: map<nat, Sector>, runs: seq<(nat, nat)>): seq<byte>
    requires Served(disk, runs)
  {
    if runs == [] then [] else RunsImage(disk, runs[..|runs| - 1]) + RunImage(disk, runs[|runs| - 1])
  }

  function RunImage(disk: map<nat, Sector>, run: (nat, nat)): (bytes: seq<byte>)
    requires Has(disk, run.0 % WINDOW, run.1)
    ensures |bytes| == run.1 * SECTOR
  {
    Image(disk, run.0 % WINDOW, run.1)
  }

  /** A read as far as it has come: `more` says that only full runs have been made. */
  ghost predicate Fetched(disk: map<nat, Sector>, runs: seq<(nat, nat)>, lba: nat, done: nat, more: bool,
                          bytes: seq<byte>)
  {
    && Covers(runs, lba, done) && Served(disk, runs) && Sixteens(runs) && bytes == RunsImage(disk, runs)
    && (more ==> forall k :: 0 <= k < |runs| ==> runs[k].1 == MULTI_SECTORS)
  }

  lemma FetchedMore(disk: map<nat, Sector>, runs: seq<(nat, nat)>, lba: nat, done: nat, bytes: seq<byte>, count: nat,
                    more: bool)
    requires Fetched(disk, runs, lba, done, true, bytes) && Has(disk, (lba + done) % WINDOW, count)
    requires 1 <= count <= MULTI_SECTORS && (more ==> count == MULTI_SECTORS)
    ensures Fetched(disk, runs + [(lba + done, count)], lba, done + count, more,
                    bytes + Image(disk, (lba + done) % WINDOW, count))
  {
  }

  lemma LastRun(disk: map<nat, Sector>, runs: seq<(nat, nat)>)
    requires Served(disk, runs) && runs != []
    ensures var init, run := runs[..|runs| - 1], runs[|runs| - 1];
            && Served(disk, init) && Has(disk, run.0 % WINDOW, run.1)
            && RunsImage(disk, runs) == RunsImage(disk, init) + RunImage(disk, run)
  {
  }

  predicate BelowWindow(runs: seq<(nat, nat)>) {
    forall k :: 0 <= k < |runs| ==> runs[k].0 < WINDOW
  }

  lemma {:induction false} StartsGrow(runs: seq<(nat, nat)>, lba: nat, n: nat)
    requires Covers(runs, lba, n)
    ensures forall k :: 0 <= k < |runs| ==> runs[k].0 <= runs[|runs| - 1].0
    decreases |runs|
  {
    CoversInOrder(runs, lba, n);
    if |runs| > 1 {
      var init := runs[..|runs| - 1];
      StartsGrow(init, lba, n - runs[|runs| - 1].1);
      assert forall k :: 0 <= k < |init| ==> init[k] == runs[k];
    }
  }

  /** Every run starts below sector 2^24 exactly when the last one does. */
  lemma WindowByLast(runs: seq<(nat, nat)>, lba: nat, n: nat)
    requires Covers(runs, lba, n)
    ensures BelowWindow(runs) <==> (runs != [] ==> runs[|runs| - 1].0 < WINDOW)
    ensures lba + n <= WINDOW && Sixteens(runs) ==> BelowWindow(runs)
  {
    CoversInOrder(runs, lba, n);
    StartsGrow(runs, lba, n);
  }

  /** Then a read in runs brings the image of the range. */
  lemma {:induction false} ReadExact(disk: map<nat, Sector>, runs: seq<(nat, nat)>, lba: nat, n: nat)
    requires Covers(runs, lba, n) && Served(disk, runs) && BelowWindow(runs)
    ensures Has(disk, lba, n) && RunsImage(disk, runs) == Image(disk, lba, n)
    decreases |runs|
  {
    if runs != [] {
      var init, run := runs[..|runs| - 1], runs[|runs| - 1];
      LastRun(disk, runs);
      assert forall k :: 0 <= k < |init| ==> init[k] == runs[k];
      ReadExact(disk, init, lba, n - run.1);
      ExactStep(disk, run, lba, n - run.1);
    }
  }

  lemma ExactStep(disk: map<nat, Sector>, run: (nat, nat), lba: nat, m: nat)
    requires Has(disk, lba, m) && run.0 == lba + m < WINDOW && Has(disk, run.0 % WINDOW, run.1)
    ensures Has(disk, lba, m + run.1) && Image(disk, lba, m) + RunImage(disk, run) == Image(disk, lba, m + run.1)
  {
    assert run.0 % WINDOW == lba + m;
    ImageAppend(disk, lba, m, run.1);
  }

  /** Below sector 2^24 each sector of a read is what reading that sector alone would bring. */
  lemma RunsAsSingles(disk: map<nat, Sector>, runs: seq<(nat, nat)>, lba: nat, n: nat, i: nat)
    requires Covers(runs, lba, n) && Sixteens(runs) && Served(disk, runs) && lba + n <= WINDOW && i < n
    ensures |RunsImage(disk, runs)| == n * SECTOR && (i + 1) * SECTOR <= n * SECTOR
    ensures Covers([(lba + i, 1)], lba + i, 1) && Served(disk, [(lba + i, 1)])
    ensures RunsImage(disk, runs)[i * SECTOR..(i + 1) * SECTOR] == RunsImage(disk, [(lba + i, 1)])
  {
    WindowByLast(runs, lba, n);
    ReadExact(disk, runs, lba, n);
    SingleOf(disk, lba, n, i, RunsImage(disk, runs));
    SingleCovers(lba + i);
  }

  lemma SingleOf(disk: map<nat, Sector>, lba: nat, n: nat, i: nat, bytes: seq<byte>)
    requires Has(disk, lba, n) && bytes == Image(disk, lba, n) && lba + n <= WINDOW && i < n
    ensures |bytes| == n * SECTOR && (i + 1) * SECTOR <= n * SECTOR
    ensures Served(disk, [(lba + i, 1)]) && bytes[i * SECTOR..(i + 1) * SECTOR] == RunsImage(disk, [(lba + i, 1)])
  {
    ImageSlice(disk, lba, n, i);
    assert (lba + i) % WINDOW == lba + i;
    SingleImage(disk, lba + i);
  }

  lemma SingleCovers(s: nat)
    ensures Covers([(s, 1)], s, 1)
  {
    var one, none := [(s, 1)], [(s, 1)][..0];
    assert none == [] && Covers(none, s, 0);
  }

  lemma SingleImage(disk: map<nat, Sector>, s: nat)
    requires s % WINDOW in disk
    ensures Served(disk, [(s, 1)]) && RunsImage(disk, [(s, 1)]) == disk[s % WINDOW]
  {
  }

  lemma ImageSlice(disk: map<nat, Sector>, lba: nat, n: nat, i: nat)
    requires Has(disk, lba, n) && i < n
    ensures (i + 1) * SECTOR <= n * SECTOR && Image(disk, lba, n)[i * SECTOR..(i + 1) * SECTOR] == disk[lba + i]
  {
  }

  lemma {:induction false} RunsLength(disk: map<nat, Sector>, runs: seq<(nat, nat)>, lba: nat, n: nat)
    requires Covers(runs, lba, n) && Served(disk, runs)
    ensures |RunsImage(disk, runs)| == n * SECTOR
    decreases |runs|
  {
    if runs != [] {
      LastRun(disk, runs);
      RunsLength(disk, runs[..|runs| - 1], lba, n - runs[|runs| - 1].1);
    }
  }

  lemma SuffixesEqual(a: seq<byte>, b: seq<byte>, c: seq<byte>, d: seq<byte>)
    requires a + b == c + d && |a| == |c|
    ensures b == d
  {
    assert b == (a + b)[|a|..] && d == (c + d)[|c|..];
  }

  lemma FirstSectors(disk: map<nat, Sector>, a: nat, b: nat, n: nat)
    requires Has(disk, a, n) && Has(disk, b, n) && n > 0 && Image(disk, a, n) == Image(disk, b, n)
    ensures disk[a] == disk[b]
  {
    ImageSlice(disk, a, n, 0);
    ImageSlice(disk, b, n, 0);
  }

  /** A read that brings the image of its range has the last run right, and so that run's first sector. */
  lemma LastRunRight(disk: map<nat, Sector>, runs: seq<(nat, nat)>, lba: nat, m: nat, run: (nat, nat))
    requires Served(disk, runs) && Covers(runs, lba, m) && Has(disk, run.0 % WINDOW, run.1)
    requires run.0 == lba + m && run.1 > 0 && Has(disk, lba, m + run.1)
    requires RunsImage(disk, runs) + RunImage(disk, run) == Image(disk, lba, m + run.1)
    ensures Has(disk, run.0, run.1) && Image(disk, run.0 % WINDOW, run.1) == Image(disk, run.0, run.1)
    ensures disk[run.0 % WINDOW] == disk[run.0]
  {
    RunsLength(disk, runs, lba, m);
    ImageAppend(disk, lba, m, run.1);
    SuffixesEqual(RunsImage(disk, runs), RunImage(disk, run), Image(disk, lba, m), Image(disk, run.0, run.1));
    FirstSectors(disk, run.0 % WINDOW, run.0, run.1);
  }

  function Filled(b: byte): Sector {
    seq(SECTOR, _ => b)
  }

  function Zeros(size: nat): (disk: map<nat, Sector>)
    ensures Has(disk, 0, size) && forall s | 0 <= s < size :: disk[s] == Filled(0)
  {
    if size == 0 then map[] else Zeros(size - 1)[size - 1 := Filled(0)]
  }

  /** When the last run starts beyond the window there is a disk on which the read goes wrong. */
  lemma ReadGoesWrong(runs: seq<(nat, nat)>, lba: nat, n: nat) returns (disk: map<nat, Sector>)
    requires Covers(runs, lba, n) && Sixteens(runs) && !BelowWindow(runs)
    ensures Served(disk, runs) && Has(disk, lba, n) && RunsImage(disk, runs) != Image(disk, lba, n)
  {
    WindowByLast(runs, lba, n);
    CoversInOrder(runs, lba, n);
    var init, run := runs[..|runs| - 1], runs[|runs| - 1];
    disk := Zeros(lba + n + WINDOW + MULTI_SECTORS)[run.0 := Filled(1)];
    assert disk[run.0 % WINDOW] == Filled(0) && disk[run.0] == Filled(1);
    assert Filled(0)[0] != Filled(1)[0];
    LastRun(disk, runs);
    if RunsImage(disk, runs) == Image(disk, lba, n) {
      LastRunRight(disk, init, lba, n - run.1, run);
    }
  }

  /** A read in runs is right, whatever is on the disk, exactly when every run starts below sector 2^24. */
  lemma RightIffBelow(runs: seq<(nat, nat)>, lba: nat, n: nat)
    requires Covers(runs, lba, n) && Sixteens(runs)
    ensures BelowWindow(runs) <==>
              forall disk | Served(disk, runs) && Has(disk, lba, n) :: RunsImage(disk, runs) == Image(disk, lba, n)
  {
    if BelowWindow(runs) {
      forall disk | Served(disk, runs) && Has(disk, lba, n)
        ensures RunsImage(disk, runs) == Image(disk, lba, n)
      {
        ReadExact(disk, runs, lba, n);
      }
    } else {
      var disk := ReadGoesWrong(runs, lba, n);
    }
  }

  /**
   * A sector beyond 2^24 is written where it should be and read from somewhere else: PUT carries the whole
   * sector number, READ_MULTI only 24 bits of it.  The bytes written do not come back.
   */
  lemma BeyondWindow(disk: map<nat, Sector>, lba: nat, bytes: Sector)
    requires lba >= WINDOW && lba in disk && lba % WINDOW in disk && disk[lba % WINDOW] != bytes
    ensures var written := Stored(disk, lba, bytes, 1);
            Served(written, [(lba, 1)]) && RunsImage(written, [(lba, 1)]) == disk[lba % WINDOW] != bytes
  {
    StoredAt(disk, lba, bytes, 1, lba % WINDOW);
    SingleImage(Stored(disk, lba, bytes, 1), lba);
  }

  lemma Prefixed(bytes: seq<byte>, wire: seq<byte>)
    requires HDR <= |wire| <= |bytes| && bytes[..|wire|] == wire
    ensures bytes[HDR..|wire|] == wire[HDR..] && forall k :: 0 <= k < HDR ==> bytes[k] == wire[k]
  {
  }
}
