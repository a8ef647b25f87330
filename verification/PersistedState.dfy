/** A value cached in memory and mirrored to a file that is truncated and rewritten on every save. */
module PersistedState {
  import opened Wrappers

  // What a read of the file gives; `Garbage` is content that does not parse.
  datatype File<+T> = Missing | Garbage | Holds(value: T)

  // The file may fail to open, leaving it as it was, or fail after truncation, leaving anything.
  datatype WriteOutcome<+T> = Written | OpenFailed | WriteFailed(left: File<T>)

  function Reload<T>(file: File<T>, default: T): T {
    if file.Holds? then file.value else default
  }

  function Current<T>(state: Option<T>, file: File<T>, default: T): T {
    if state.Some? then state.value else Reload(file, default)
  }

  function AfterWrite<T>(file: File<T>, value: T, w: WriteOutcome<T>): File<T> {
    match w
    case Written => Holds(value)
    case OpenFailed => file
    case WriteFailed(left) => left
  }

  class Container<T> {
    const default: T
    var state: Option<T>
    var file: File<T>

    constructor (default: T, file: File<T>)
      ensures this.default == default && state == None && this.file == file
    {
      this.default, state, this.file := default, None, file;
    }

    ghost function Value(): T
      reads this
    {
      Current(state, file, default)
    }

    method LoadOrGet() returns (value: T)
      modifies this`state
      ensures value == old(Value()) == Value() && state == Some(value)
      ensures value == match old(state)
                       case Some(v) => v
                       case None => if file.Holds? then file.value else default
    {
      if state.Some? {
        return state.value;
      }
      value := if file.Holds? then file.value else default;
      state := Some(value);
    }

    // The memory is updated before, and whether or not, the file is.
    method Save(value: T, w: WriteOutcome<T>) returns (ok: bool)
      modifies this
      ensures ok <==> w.Written?
      ensures state == Some(value) && Value() == value && file == AfterWrite(old(file), value, w)
      ensures file == if w.Written? then Holds(value) else if w.OpenFailed? then old(file) else w.left
      ensures ok ==> Reload(file, default) == Value()
    {
      state := Some(value);
      match w {
        case Written => file := Holds(value); ok := true;
        case OpenFailed => ok := false;
        case WriteFailed(left) => file := left; ok := false;
      }
    }

    method Update(mutator: T -> T, w: WriteOutcome<T>) returns (ok: bool)
      modifies this
      ensures ok <==> w.Written?
      ensures Value() == mutator(old(Value())) && file == AfterWrite(old(file), Value(), w)
      ensures ok ==> Reload(file, default) == Value()
    {
      var value := LoadOrGet();
      ok := Save(mutator(value), w);
    }
  }
}
