/**
 * The log storage directory as the writers see it: the files it holds, in the order a
 * directory listing returns them, and what each holds. Appends and deletes either
 * succeed or fail with a description; which names fail is part of the directory's state
 * (`faults`, e.g. a file the process may not write). Whether the directory can be
 * resolved and listed at all are two more flags.
 */
module FileSystem {
  import opened Seqs

  datatype Outcome = Pass | Fail(reason: string)

  /** The description of a failed delete of a name that is not there. */
  const NoSuchFile: string := "The file doesn't exist."

  /** A value snapshot of the directory. */
  datatype Volume = Volume(
    entries: seq<string>,
    files: map<string, string>,
    faults: map<string, string>,
    resolvable: bool,
    listable: bool)

  /** The listing names each file exactly once. */
  predicate WellFormed(v: Volume) {
    && Distinct(v.entries)
    && (forall n | n in v.files :: n in v.entries)
    && (forall i | 0 <= i < |v.entries| :: v.entries[i] in v.files)
  }

  /** The size of a file, 0 for a file that does not exist. */
  function SizeOf(v: Volume, name: string): nat {
    if name in v.files then |v.files[name]| else 0
  }

  /** What a file holds; a missing file holds nothing. */
  function Content(v: Volume, name: string): string {
    if name in v.files then v.files[name] else ""
  }

  function AppendOutcome(v: Volume, name: string): Outcome {
    if name in v.faults then Fail(v.faults[name]) else Pass
  }

  /** The directory after appending `data` to `name`, creating the file when it is missing. */
  function Appended(v: Volume, name: string, data: string): (r: Volume)
    requires WellFormed(v)
    ensures WellFormed(r)
    ensures r.faults == v.faults && r.resolvable == v.resolvable && r.listable == v.listable
    ensures AppendOutcome(v, name).Fail? ==> r == v
    ensures AppendOutcome(v, name).Pass? ==>
      name in r.files && r.files[name] == Content(v, name) + data
    ensures forall n | n != name :: (n in r.files <==> n in v.files)
    ensures forall n | n != name && n in v.files :: r.files[n] == v.files[n]
    ensures v.entries <= r.entries
  {
    if name in v.faults then v
    else if name in v.files then v.(files := v.files[name := v.files[name] + data])
    else v.(entries := v.entries + [name], files := v.files[name := data])
  }

  function RemoveOutcome(v: Volume, name: string): Outcome {
    if name in v.faults then Fail(v.faults[name])
    else if name !in v.files then Fail(NoSuchFile)
    else Pass
  }

  /** The directory after deleting `name`; a failed delete changes nothing. */
  function Removed(v: Volume, name: string): (r: Volume)
    requires WellFormed(v)
    ensures WellFormed(r)
    ensures r.faults == v.faults && r.resolvable == v.resolvable && r.listable == v.listable
  {
    if RemoveOutcome(v, name).Pass? then
      WithoutDistinct(v.entries, {name});
      v.(entries := Without(v.entries, {name}), files := v.files - {name})
    else v
  }

  /** The names a sequence of deletes removes: those present and not faulty. */
  function Deleted(v: Volume, names: seq<string>): set<string> {
    set n | n in names && n in v.files && n !in v.faults
  }

  /** The directory after deleting each of `names` in turn, ignoring failures. */
  function RemovedAll(v: Volume, names: seq<string>): (r: Volume)
    requires WellFormed(v)
    ensures WellFormed(r)
    ensures r.faults == v.faults && r.resolvable == v.resolvable && r.listable == v.listable
    decreases |names|
  {
    if names == [] then v
    else Removed(RemovedAll(v, names[..|names| - 1]), names[|names| - 1])
  }

  /**
   * Deleting each of `names` in turn removes exactly the present, non-faulty names:
   * the listing keeps its order and every other file keeps its content.
   */
  lemma {:induction false} RemovedAllSpec(v: Volume, names: seq<string>)
    requires WellFormed(v)
    ensures RemovedAll(v, names).entries == Without(v.entries, Deleted(v, names))
    ensures RemovedAll(v, names).files == v.files - Deleted(v, names)
    decreases |names|
  {
    if names == [] {
      assert Deleted(v, names) == {};
      WithoutAbsent(v.entries, {});
      assert v.files - {} == v.files;
    } else {
      RemovedAllSpec(v, names[..|names| - 1]);
      RemovedAllSnoc(v, names);
    }
  }

  /** The inductive step of `RemovedAllSpec`: from all but the last delete to all of them. */
  lemma RemovedAllSnoc(v: Volume, names: seq<string>)
    requires WellFormed(v) && names != []
    requires var init := names[..|names| - 1];
      && RemovedAll(v, init).entries == Without(v.entries, Deleted(v, init))
      && RemovedAll(v, init).files == v.files - Deleted(v, init)
    ensures RemovedAll(v, names).entries == Without(v.entries, Deleted(v, names))
    ensures RemovedAll(v, names).files == v.files - Deleted(v, names)
  {
    var init := names[..|names| - 1];
    DeletedSnoc(v, names);
    RemovedOneMore(v, RemovedAll(v, init), Deleted(v, init), names[|names| - 1]);
  }

  /**
   * One more delete, after a run of deletes that removed exactly `d1`: the name joins
   * the removed ones when it is present and not faulty.
   */
  lemma RemovedOneMore(v: Volume, v1: Volume, d1: set<string>, x: string)
    requires WellFormed(v) && WellFormed(v1) && v1.faults == v.faults
    requires v1.entries == Without(v.entries, d1) && v1.files == v.files - d1
    ensures var d := if x in v.files - d1 && x !in v.faults then d1 + {x} else d1;
      Removed(v1, x).entries == Without(v.entries, d) && Removed(v1, x).files == v.files - d
  {
    if RemoveOutcome(v1, x).Pass? {
      WithoutWithout(v.entries, d1, {x});
      assert (v.files - d1) - {x} == v.files - (d1 + {x});
    }
  }

  /** What one more delete adds to the deleted names. */
  lemma DeletedSnoc(v: Volume, names: seq<string>)
    requires names != []
    ensures var d1 := Deleted(v, names[..|names| - 1]);
      var x := names[|names| - 1];
      Deleted(v, names) == if x in v.files - d1 && x !in v.faults then d1 + {x} else d1
  {
    var init, x := names[..|names| - 1], names[|names| - 1];
    assert names == init + [x];
    var d1 := Deleted(v, init);
    var d := Deleted(v, names);
    forall n | n in d ensures n in d1 || n == x {
      assert n in init + [x];
      if n != x { assert n in init; }
    }
  }

  /** Deleting files never changes the content of a file that is still there. */
  lemma RemovedAllOnlyDeletes(v: Volume, names: seq<string>)
    requires WellFormed(v)
    ensures forall n | n in RemovedAll(v, names).files :: n in v.files && RemovedAll(v, names).files[n] == v.files[n]
    ensures forall n | n in v.files && n !in names :: n in RemovedAll(v, names).files
  {
    RemovedAllSpec(v, names);
  }

  /** The storage directory itself, the state that `FileManager` acts on. */
  class Disk {
    var entries: seq<string>
    var files: map<string, string>
    var faults: map<string, string>
    var resolvable: bool
    var listable: bool

    function Snapshot(): Volume
      reads this
    {
      Volume(entries, files, faults, resolvable, listable)
    }

    predicate Valid()
      reads this
    {
      WellFormed(Snapshot())
    }

    constructor (v: Volume)
      requires WellFormed(v)
      ensures Valid() && Snapshot() == v
    {
      entries, files, faults := v.entries, v.files, v.faults;
      resolvable, listable := v.resolvable, v.listable;
    }

    /** The size in bytes of a file (`URL.fileSize`); a missing file has size 0. */
    function FileSize(name: string): (size: nat)
      reads this
      ensures size == SizeOf(Snapshot(), name)
    {
      if name in files then |files[name]| else 0
    }

    /** Appends `data` to `name`, creating the file if needed (`Data.append(fileURL:)`). */
    method Append(name: string, data: string) returns (outcome: Outcome)
      requires Valid()
      modifies this
      ensures Valid()
      ensures outcome == AppendOutcome(old(Snapshot()), name)
      ensures Snapshot() == Appended(old(Snapshot()), name, data)
    {
      if name in faults {
        return Fail(faults[name]);
      }
      if name in files {
        files := files[name := files[name] + data];
      } else {
        entries := entries + [name];
        files := files[name := data];
      }
      outcome := Pass;
    }

    /** Deletes `name` (`FileManager.removeItem(at:)`). */
    method Remove(name: string) returns (outcome: Outcome)
      requires Valid()
      modifies this
      ensures Valid()
      ensures outcome == RemoveOutcome(old(Snapshot()), name)
      ensures Snapshot() == Removed(old(Snapshot()), name)
    {
      outcome := RemoveOutcome(Snapshot(), name);
      if outcome.Pass? {
        WithoutDistinct(entries, {name});
        entries := Without(entries, {name});
        files := files - {name};
      }
    }
  }
}
