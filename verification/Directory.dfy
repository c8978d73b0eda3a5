/** The executable's directory as a sequence of single file operations.

    Each method is one operation of the operating system: it happens whole or not at all, and
    whether it fails is read from `faults` at the number of operations run so far, so a proof
    about a caller covers every pattern of failures.  `states` holds every state the directory has
    been in since the process started; a crash leaves the directory in one of them. */
module UpdateDirectory {
  import opened Common
  import opened JournalModel

  datatype Lookup = Found(file: File) | Missing | Unreadable

  lemma FreshTemp(d: Files, role: Role) returns (id: nat)
    ensures Temp(role, id) !in d
  {
    var taken := set n <- d | n.Temp? :: n.id;
    id := Above(taken);
    assert forall n <- d :: n.Temp? ==> n.id in taken;
  }

  lemma Above(s: set<nat>) returns (bound: nat)
    ensures bound !in s && forall i <- s :: i < bound
  {
    if s == {} {
      bound := 0;
    } else {
      var i :| i in s;
      var rest := Above(s - {i});
      bound := if rest <= i then i + 1 else rest;
      forall j | j in s
        ensures j < bound
      {
        assert j == i || j in s - {i};
      }
    }
  }

  class Directory {
    const faults: set<nat>
    var files: Files
    var states: set<Files>
    var clock: nat

    ghost predicate Valid()
      reads this
    {
      files in states
    }

    constructor (start: Files, faults: set<nat>)
      ensures Valid() && files == start && states == {start} && clock == 0 && this.faults == faults
    {
      this.faults := faults;
      files, states, clock := start, {start}, 0;
    }

    /** True when none of the operations numbered `from`, `from + 1`, ..., `clock - 1` failed. */
    ghost predicate Calm(from: nat)
      reads this
    {
      forall i :: from <= i < clock ==> i !in faults
    }

    /** True when none of the operations numbered `from`, ..., `to - 1` fails. */
    ghost predicate Clear(from: nat, to: nat) {
      forall i :: from <= i < to ==> i !in faults
    }

    method Tick() returns (ok: bool)
      requires Valid()
      modifies this`clock
      ensures clock == old(clock) + 1 && (ok <==> old(clock) !in faults)
    {
      ok := clock !in faults;
      clock := clock + 1;
    }

    method Become(next: Files)
      requires Valid()
      modifies this`files, this`states
      ensures Valid() && files == next && states == old(states) + {next}
    {
      files := next;
      states := states + {next};
    }

    /** Lstat and open for reading. */
    method Open(name: Name) returns (r: Lookup)
      requires Valid()
      modifies this`clock
      ensures clock == old(clock) + 1
      ensures r == if old(clock) in faults then Unreadable
                   else if name in files then Found(files[name]) else Missing
    {
      var ok := Tick();
      r := if !ok then Unreadable else if name in files then Found(files[name]) else Missing;
    }

    /** Creates an empty private file under an unused name of the given role. */
    method CreateTemp(role: Role) returns (r: Option<Name>)
      requires Valid()
      modifies this
      ensures Valid() && clock == old(clock) + 1
      ensures r.None? <==> old(clock) in faults
      ensures r.None? ==> files == old(files)
      ensures r.Some? ==>
                && HasRole(r.value, role) && r.value !in old(files)
                && files == old(files)[r.value := File(Binary([]), PRIVATE_MODE)]
      ensures states == old(states) + {files}
    {
      var ok := Tick();
      if !ok {
        return None;
      }
      ghost var witnessId := FreshTemp(files, role);
      var id: nat := 0;
      while Temp(role, id) in files
        invariant id <= witnessId
        decreases witnessId - id
      {
        id := id + 1;
      }
      Become(files[Temp(role, id) := File(Binary([]), PRIVATE_MODE)]);
      return Some(Temp(role, id));
    }

    method Chmod(name: Name, mode: Mode) returns (ok: bool)
      requires Valid()
      modifies this
      ensures Valid() && clock == old(clock) + 1
      ensures ok <==> old(clock) !in faults && name in old(files)
      ensures !ok ==> files == old(files)
      ensures ok ==> files == old(files)[name := old(files)[name].(mode := mode)]
      ensures states == old(states) + {files}
    {
      ok := Tick();
      ok := ok && name in files;
      if ok {
        Become(files[name := files[name].(mode := mode)]);
      }
    }

    /** Fills an open file.  A crash or a failure in the middle leaves it torn. */
    method Write(name: Name, content: Content) returns (ok: bool)
      requires Valid() && name in files
      modifies this
      ensures Valid() && clock == old(clock) + 1
      ensures ok <==> old(clock) !in faults
      ensures files == old(files)[name := File(if ok then content else Torn, old(files)[name].mode)]
      ensures states == old(states) + {old(files)[name := File(Torn, old(files)[name].mode)], files}
    {
      Become(files[name := files[name].(content := Torn)]);
      ok := Tick();
      if ok {
        Become(files[name := files[name].(content := content)]);
      }
    }

    /** Flushes and closes a file, or flushes the directory itself. */
    method Sync() returns (ok: bool)
      requires Valid()
      modifies this`clock
      ensures clock == old(clock) + 1 && (ok <==> old(clock) !in faults)
    {
      ok := Tick();
    }

    method Rename(source: Name, target: Name) returns (ok: bool)
      requires Valid() && source != target
      modifies this
      ensures Valid() && clock == old(clock) + 1
      ensures ok <==> old(clock) !in faults && source in old(files)
      ensures !ok ==> files == old(files)
      ensures ok ==> files == old(files)[target := old(files)[source]] - {source}
      ensures states == old(states) + {files}
    {
      ok := Tick();
      ok := ok && source in files;
      if ok {
        Become(files[target := files[source]] - {source});
      }
    }

    /** `ok` also covers a file that is already gone. */
    method Remove(name: Name) returns (ok: bool)
      requires Valid()
      modifies this
      ensures Valid() && clock == old(clock) + 1
      ensures ok <==> old(clock) !in faults
      ensures files == if ok then old(files) - {name} else old(files)
      ensures states == old(states) + {files}
    {
      ok := Tick();
      if ok && name in files {
        Become(files - {name});
      } else {
        assert ok ==> files == files - {name};
      }
    }
  }
}
