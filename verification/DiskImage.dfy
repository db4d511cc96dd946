/** Disks as sequences of 512-byte sectors, and what storing or fetching a run of sectors means. */
module DiskImage {
  import opened Basics

  const SECTOR: nat := 512

  type Sector = s: seq<byte> | |s| == SECTOR witness seq(SECTOR, _ => 0)

  /** `live` is what reads return; `stable` is what has certainly reached the medium. */
  datatype Disk = Disk(mounted: bool, live: map<nat, Sector>, stable: map<nat, Sector>)

  predicate Has(live: map<nat, Sector>, lba: nat, n: nat) {
    forall s :: lba <= s < lba + n ==> s in live
  }

  /** The bytes of `n` sectors from `lba` on. */
  function Image(live: map<nat, Sector>, lba: nat, n: nat): (bytes: seq<byte>)
    requires Has(live, lba, n)
    ensures |bytes| == n * SECTOR
  {
    if n == 0 then [] else Image(live, lba, n - 1) + live[lba + n - 1]
  }

  /** Sector `i` of a run of bytes. */
  function SectorOf(bytes: seq<byte>, i: nat): Sector
    requires (i + 1) * SECTOR <= |bytes|
  {
    bytes[i * SECTOR..(i + 1) * SECTOR]
  }

  /** The disk after the first `n` sectors of `bytes` are stored from `lba` on. */
  function Stored(live: map<nat, Sector>, lba: nat, bytes: seq<byte>, n: nat): map<nat, Sector>
    requires n * SECTOR <= |bytes|
  {
    if n == 0 then live else Stored(live, lba, bytes, n - 1)[lba + n - 1 := SectorOf(bytes, n - 1)]
  }

  /** Each of the `n` sectors holds its share of the bytes and every other sector is as before. */
  lemma {:induction false} StoredAt(live: map<nat, Sector>, lba: nat, bytes: seq<byte>, n: nat, s: nat)
    requires n * SECTOR <= |bytes|
    ensures var after := Stored(live, lba, bytes, n);
            if lba <= s < lba + n then s in after && after[s] == SectorOf(bytes, s - lba)
            else (s in after <==> s in live) && (s in live ==> after[s] == live[s])
  {
    if n > 0 {
      StoredAt(live, lba, bytes, n - 1, s);
    }
  }

  /** A longer run stores the sectors of the shorter one alike. */
  lemma {:induction false} StoredPrefix(live: map<nat, Sector>, lba: nat, first: seq<byte>, second: seq<byte>, n: nat)
    requires n * SECTOR <= |first|
    ensures Stored(live, lba, first + second, n) == Stored(live, lba, first, n)
  {
    if n > 0 {
      StoredPrefix(live, lba, first, second, n - 1);
      assert SectorOf(first + second, n - 1) == SectorOf(first, n - 1);
    }
  }

  /** Byte `j` of the `i`-th sector is byte 512 i + j of the image. */
  lemma {:induction false} ImageAt(live: map<nat, Sector>, lba: nat, n: nat, i: nat, j: nat)
    requires Has(live, lba, n) && i < n && j < SECTOR
    ensures i * SECTOR + j < n * SECTOR && Image(live, lba, n)[i * SECTOR + j] == live[lba + i][j]
  {
    if i < n - 1 {
      ImageAt(live, lba, n - 1, i, j);
    }
  }

  /** The image of a run is that of its first part and then that of the rest. */
  lemma {:induction false} ImageAppend(live: map<nat, Sector>, lba: nat, m: nat, n: nat)
    requires Has(live, lba, m + n)
    ensures Image(live, lba, m + n) == Image(live, lba, m) + Image(live, lba + m, n)
  {
    if n == 0 {
      assert Image(live, lba, m) + [] == Image(live, lba, m);
    } else {
      ImageAppend(live, lba, m, n - 1);
    }
  }

  /** What was stored is what is fetched. */
  lemma {:induction false} ImageOfStored(live: map<nat, Sector>, lba: nat, bytes: seq<byte>, n: nat, k: nat)
    requires k <= n && n * SECTOR <= |bytes|
    ensures Has(Stored(live, lba, bytes, n), lba, k)
    ensures Image(Stored(live, lba, bytes, n), lba, k) == bytes[..k * SECTOR]
  {
    if k > 0 {
      ImageOfStored(live, lba, bytes, n, k - 1);
      StoredAt(live, lba, bytes, n, lba + k - 1);
      assert bytes[..(k - 1) * SECTOR] + SectorOf(bytes, k - 1) == bytes[..k * SECTOR];
    }
  }

  /** Storage for eight targets.  Every operation may fail, and a failure may take the target off line. */
  class Storage {
    var disks: seq<Disk>
    // how often storage was asked for something and failed
    ghost var refusals: nat

    predicate Valid()
      reads this
    {
      |disks| == 8
    }

    constructor (disks: seq<Disk>)
      requires |disks| == 8
      ensures Valid() && this.disks == disks
    {
      this.disks, refusals := disks, 0;
    }

    /** All disks are as before but for target `t`, of which at most the mount is lost. */
    twostate predicate Untouched(t: nat)
      reads this
    {
      && |disks| == |old(disks)|
      && (forall u: nat | u < |disks| && u != t :: disks[u] == old(disks)[u])
      && (t < |disks| ==> disks[t].live == old(disks)[t].live && disks[t].stable == old(disks)[t].stable)
    }

    twostate predicate OthersUntouched(t: nat)
      reads this
    {
      |disks| == |old(disks)| && forall u: nat | u < |disks| && u != t :: disks[u] == old(disks)[u]
    }

    method MayUnmount(t: nat)
      requires Valid() && t < 8
      modifies this`disks
      ensures Valid() && Untouched(t)
    {
      var off: bool := *;
      if off {
        disks := disks[t := disks[t].(mounted := false)];
      }
    }

    method ReadSector(t: nat, lba: nat, buf: array<byte>) returns (ok: bool)
      requires Valid() && t < 8 && buf.Length == SECTOR
      modifies this, buf
      ensures Valid() && Untouched(t) && refusals == old(refusals) + (if ok then 0 else 1)
      ensures ok ==> disks == old(disks) && lba in disks[t].live && buf[..] == disks[t].live[lba]
    {
      var fails: bool := *;
      if fails || lba !in disks[t].live {
        refusals := refusals + 1;
        MayUnmount(t);
        return false;
      }
      var bytes := disks[t].live[lba];
      for j := 0 to SECTOR
        modifies buf
        invariant buf[..j] == bytes[..j]
      {
        buf[j] := bytes[j];
      }
      ok := true;
    }

    /** A write that fails may leave the sector torn. */
    method WriteSector(t: nat, lba: nat, buf: array<byte>) returns (ok: bool)
      requires Valid() && t < 8 && buf.Length == SECTOR
      modifies this
      ensures Valid() && forall u: nat | u < 8 && u != t :: disks[u] == old(disks)[u]
      ensures refusals == old(refusals) + (if ok then 0 else 1)
      ensures ok ==> disks[t] == old(disks)[t].(live := old(disks)[t].live[lba := buf[..]])
      ensures !ok ==>
                && disks[t].stable == old(disks)[t].stable
                && disks[t].live.Keys == old(disks)[t].live.Keys
                && forall s | s in disks[t].live && s != lba :: disks[t].live[s] == old(disks)[t].live[s]
      ensures ok ==> lba in old(disks)[t].live
    {
      var fails: bool := *;
      if fails || lba !in disks[t].live {
        refusals := refusals + 1;
        if lba in disks[t].live {
          var torn: Sector := *;
          disks := disks[t := disks[t].(live := disks[t].live[lba := torn])];
        }
        MayUnmount(t);
        return false;
      }
      disks := disks[t := disks[t].(live := disks[t].live[lba := buf[..]])];
      ok := true;
    }

    /** After a successful sync the medium holds what reads return; after a failed one nothing is known of it. */
    method Sync(t: nat) returns (ok: bool)
      requires Valid() && t < 8
      modifies this
      ensures Valid() && forall u: nat | u < 8 && u != t :: disks[u] == old(disks)[u]
      ensures disks[t].live == old(disks)[t].live && refusals == old(refusals) + (if ok then 0 else 1)
      ensures ok ==> disks[t] == old(disks)[t].(stable := disks[t].live)
    {
      var fails: bool := *;
      if fails {
        refusals := refusals + 1;
        var unknown: map<nat, Sector> := *;
        disks := disks[t := disks[t].(stable := unknown)];
        MayUnmount(t);
        return false;
      }
      disks := disks[t := disks[t].(stable := disks[t].live)];
      ok := true;
    }
  }
}
