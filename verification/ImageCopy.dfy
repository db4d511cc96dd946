/**
 * The chunked copy of an image file: up to eight 4 KB blocks per call, over a card whose every file
 * operation may fail.
 */
module ImageCopy {
  import opened Basics

  const BLOCK: nat := 4096
  const BLOCKS_PER_STEP: nat := 8
  const NAME_MAX: nat := 64

  type Files = map<string, seq<byte>>

  datatype CopyError =
    | NoCard | AlreadyRunning | BadName | NameTooLong | Exists | Mounted | CannotOpenSource | CannotCreate
    | NotRunning | ReadFailed | WriteFailed | CloseFailed

  datatype Step = More | Complete | Failed(error: CopyError)

  function Lower(c: char): char {
    if 'A' <= c <= 'Z' then (c as int + 32) as char else c
  }

  /** Names that end in .img, in either case, are longer than that and are not hidden. */
  predicate ImageName(name: string) {
    |name| >= 5 && name[0] != '.' && forall k :: 0 <= k < 4 ==> Lower(name[|name| - 4 + k]) == ".img"[k]
  }

  /** Whatever the case of its extension, a name is a stem that is not hidden and ".img". */
  lemma ImageNameIff(stem: string, extension: string)
    requires |extension| == 4
    ensures ImageName(stem + extension) <==>
              && stem != [] && stem[0] != '.'
              && extension[0] == '.' && extension[1] in "iI" && extension[2] in "mM" && extension[3] in "gG"
  {
    var name := stem + extension;
    assert forall k :: 0 <= k < 4 ==> name[|name| - 4 + k] == extension[k];
    LowerIs(extension[0], extension[1], extension[2], extension[3]);
    if ImageName(name) {
      assert Lower(name[|name| - 4 + 0]) == ".img"[0] && Lower(name[|name| - 4 + 1]) == ".img"[1];
      assert Lower(name[|name| - 4 + 2]) == ".img"[2] && Lower(name[|name| - 4 + 3]) == ".img"[3];
    }
  }

  lemma LowerIs(a: char, b: char, c: char, d: char)
    ensures Lower(a) == '.' <==> a == '.'
    ensures Lower(b) == 'i' <==> b in "iI"
    ensures Lower(c) == 'm' <==> c in "mM"
    ensures Lower(d) == 'g' <==> d in "gG"
  {
  }

  class Card {
    var files: Files
    var ready: bool
    // images open for writing because they are mounted
    var mounted: set<string>
    // how often the card has failed to do something
    ghost var faults: nat
    // the copy under way
    var active: bool
    var source: string
    var target: string
    var position: nat
    ghost var before: Files

    /** While a copy runs, the target is what has been read of the source, and nothing else has changed. */
    ghost predicate Valid()
      reads this
    {
      active ==>
        && source in before && target !in before && source != target
        && position <= |before[source]|
        && files == before[target := before[source][..position]]
    }

    constructor (files: Files, ready: bool)
      ensures Valid() && !active && this.files == files && this.ready == ready
    {
      this.files, this.ready, active := files, ready, false;
      mounted, faults := {}, 0;
      source, target, position, before := "", "", 0, map[];
    }

    /** Bytes of the source not yet copied. */
    ghost function Remaining(): nat
      requires Valid() && active
      reads this
    {
      |before[source]| - position
    }

    /** Other console operations create and remove images; they run only while no copy does. */
    method OtherOperation()
      requires !active
      modifies this`files
    {
      files := *;
    }

    /** The place so many bytes further on, or the end of the source. */
    ghost function Further(from: nat, bytes: nat): nat
      requires source in before
      reads this
    {
      if from + bytes < |before[source]| then from + bytes else |before[source]|
    }

    /** A copy is refused for the reason given. */
    ghost predicate Refused(src: string, dst: string, error: CopyError, faults: nat)
      reads this
    {
      match error
      case NoCard => !ready
      case AlreadyRunning => active
      case BadName => !ImageName(dst)
      case NameTooLong => |dst| >= NAME_MAX
      case Mounted => src in mounted
      case CannotOpenSource => src !in files || this.faults > faults
      case Exists => dst in files
      case CannotCreate => this.faults > faults
      case _ => false
    }

    method CopyBegin(src: string, dst: string) returns (error: Option<CopyError>)
      requires Valid()
      modifies this
      ensures Valid()
      ensures error == None ==>
                && active && source == src && target == dst && position == 0 && before == old(files)
                && old(!active && ready && src in files && dst !in files) && ImageName(dst) && |dst| < NAME_MAX
                && src !in mounted
      ensures error.Some? ==>
                && active == old(active) && files == old(files) && before == old(before) && position == old(position)
                && Refused(src, dst, error.value, old(faults))
    {
      if !ready { return Some(NoCard); }
      if active { return Some(AlreadyRunning); }
      if !ImageName(dst) { return Some(BadName); }
      if |dst| >= NAME_MAX { return Some(NameTooLong); }
      if src in mounted { return Some(Mounted); }
      var opens: bool := *;
      if src !in files { return Some(CannotOpenSource); }
      if !opens {
        faults := faults + 1;
        return Some(CannotOpenSource);
      }
      if dst in files { return Some(Exists); }
      var creates: bool := *;
      if !creates {
        faults := faults + 1;
        return Some(CannotCreate);
      }
      before := files;
      files := files[dst := []];
      source, target, position, active := src, dst, 0, true;
      error := None;
    }

    /**
     * Gives up: closes both files, which may lose what was not yet on the card, and removes the target.  The
     * removal itself may fail, and then a beginning of the source stays behind.
     */
    method GiveUp() returns (ghost removed: bool)
      requires active && source in before && target !in before
      requires target in files && files[target] <= before[source] && files == before[target := files[target]]
      modifies this`active, this`files, this`faults
      ensures !active && forall error :: Ended(Failed(error), removed)
      ensures faults == old(faults) + if removed then 0 else 1
    {
      var kept: int := *;
      if 0 <= kept <= |files[target]| {
        files := files[target := files[target][..kept]];
      }
      var works: bool := *;
      removed := works;
      if works {
        files := files - {target};
        assert files == before;
      } else {
        faults := faults + 1;
      }
      active := false;
    }

    /** How a copy that ended left the card. */
    ghost predicate Ended(step: Step, removed: bool)
      reads this
    {
      match step
      case More => false
      case Complete => source in before && files == before[target := before[source]]
      case Failed(_) =>
        if removed then files == before
        else
          && source in before && target in files && files[target] <= before[source]
          && files == before[target := files[target]]
    }

    method CopyStep() returns (step: Step, ghost removed: bool)
      requires Valid()
      modifies this`files, this`active, this`position, this`faults
      ensures Valid()
      ensures step.More? ==>
                && old(active) && active && Remaining() < old(Remaining())
                && position == Further(old(position), 0x8000)
      ensures step.Failed? && old(active) ==> faults > old(faults)
      ensures !old(active) ==> step == Failed(NotRunning) && files == old(files) && !active
      ensures old(active) && !step.More? ==> !active && Ended(step, removed)
    {
      removed := false;
      if !active { return Failed(NotRunning), false; }
      var i := 0;
      while i < BLOCKS_PER_STEP
        invariant i <= BLOCKS_PER_STEP && Valid() && active
        invariant position == Further(old(position), i * BLOCK)
        invariant faults == old(faults) && (i > 0 ==> position > old(position))
        decreases BLOCKS_PER_STEP - i
      {
        var result: Option<Step>;
        result, removed := CopyBlock();
        if result.Some? { return result.value, removed; }
        i := i + 1;
      }
      step := More;
    }

    /** One block: nothing to report while the copy goes on. */
    method CopyBlock() returns (result: Option<Step>, ghost removed: bool)
      requires Valid() && active
      modifies this`files, this`active, this`position, this`faults
      ensures result == None ==> Valid() && active && position == Further(old(position), BLOCK) > old(position)
      ensures result == None ==> faults == old(faults)
      ensures result.Some? ==> !active && Ended(result.value, removed)
      ensures result.Some? && result.value.Failed? ==> faults > old(faults)
    {
      removed := false;
      var canRead: bool := *;
      if !canRead {
        faults := faults + 1;
        removed := GiveUp();
        return Some(Failed(ReadFailed)), removed;
      }
      var left := |files[source]| - position;
      var br := if left < BLOCK then left else BLOCK;
      if br == 0 {
        var closes: bool := *;
        if !closes {
          faults := faults + 1;
          removed := GiveUp();
          return Some(Failed(CloseFailed)), removed;
        }
        assert before[source][..position] == before[source];
        active := false;
        return Some(Complete), false;
      }
      var block := files[source][position..position + br];
      var bw: int := *;
      bw := if bw < 0 then 0 else if bw > br then br else bw;
      ghost var whole, copied := before[source], files[target];
      assert block == whole[position..position + br];
      assert copied + block[..bw] == whole[..position + bw];
      files := files[target := files[target] + block[..bw]];
      assert files == before[target := whole[..position + bw]];
      var canWrite: bool := *;
      if !canWrite || bw != br {
        faults := faults + 1;
        removed := GiveUp();
        return Some(Failed(WriteFailed)), removed;
      }
      position := position + br;
      result := None;
    }
  }
}
