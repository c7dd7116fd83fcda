/** Safe write-then-rename of a file's content (ContentModifier).

    New content is written to a temporary file created next to the file to
    modify; `close` closes both sides and, only if no I/O operation failed,
    moves the temporary file over the original, atomically when the file
    system allows it. Any failure seen by the stream wrappers sets a one-way
    `ioFailed` flag that forbids the rename.

    The outcomes of the collaborators close cannot see (closing the input and
    output streams, each move attempt) are parameters of `Close`; a move that
    fails changes nothing. File contents are byte sequences. Whether creating
    the temporary file fails is a parameter of `Open`.
 */
module ContentModifier {
  import opened Wrappers
  import Nio

  datatype IOKind = Generic | AtomicMoveNotSupported

  /** An IOException thrown by a collaborator. */
  datatype IOError = IOError(kind: IOKind, message: string)

  /** What close throws: an IOException carrying the later failures as
      suppressed exceptions, or a RenameFailureException wrapping the failure
      of the move. */
  datatype CloseError =
    | Aggregate(primary: IOError, suppressed: seq<IOError>)
    | RenameFailure(cause: IOError)

  const IO_FAILED_MESSAGE: string := "one or more I/O operation(s) failed, will not rename"

  const IO_FAILED: IOError := IOError(Generic, IO_FAILED_MESSAGE)

  /** Which concrete modifier the file was opened with. */
  datatype OpenMode = Binary | Text

  datatype Accessor = InputStream | OutputStream | BufferedReader | BufferedWriter

  /** The base accessors throw IllegalArgumentException; BinaryContentModifier
      overrides the two stream accessors and TextContentModifier the reader
      and writer. The result is the accessor's exception message, or None when
      the open mode provides the accessor. */
  function AccessorRefusal(mode: OpenMode, a: Accessor): Option<string> {
    match a
    case InputStream | OutputStream =>
      if mode == Binary then None else Some("file opened as text")
    case BufferedReader | BufferedWriter =>
      if mode == Text then None else Some("file opened as binary")
  }

  function ModeName(mode: OpenMode): string {
    if mode == Binary then "binary" else "text"
  }

  /** Binary content is reached through streams, text through reader and
      writer; any other accessor is refused with a message naming the mode
      the file was opened in. */
  lemma AccessorsMatchMode(mode: OpenMode, a: Accessor)
    ensures AccessorRefusal(mode, a).None?
      <==> (mode == Binary <==> a == InputStream || a == OutputStream)
    ensures AccessorRefusal(mode, a).Some?
      ==> AccessorRefusal(mode, a).value == "file opened as " + ModeName(mode)
  {
  }

  function Failures(o: Option<IOError>): seq<IOError> {
    if o.Some? then [o.value] else []
  }

  /** What close throws, given the flag and the outcome of each collaborator:
      the failures, starting with the flag's own exception, are gathered into
      the first one; only if there are none is the move attempted, retried
      without ATOMIC_MOVE only when the atomic move is unsupported. */
  function CloseSpec(ioFailed: bool, closeInput: Option<IOError>, closeOutput: Option<IOError>,
                     atomicMove: Option<IOError>, plainMove: Option<IOError>): Option<CloseError>
  {
    var failures := (if ioFailed then [IO_FAILED] else []) + Failures(closeInput) + Failures(closeOutput);
    if |failures| > 0 then Some(Aggregate(failures[0], failures[1..]))
    else if atomicMove.None? then None
    else if atomicMove.value.kind == AtomicMoveNotSupported then
      if plainMove.None? then None else Some(RenameFailure(plainMove.value))
    else Some(RenameFailure(atomicMove.value))
  }

  /** What the constructor throws: createTempFile's NullPointerException when
      the file to modify has no parent, or its IOException. */
  datatype OpenError = NoParent | TempFileFailed(cause: IOError)

  class Modifier {
    const toModify: Nio.Path
    const tempfile: Nio.Path
    var ioFailed: bool
    /** Contents of the file to modify. */
    var original: seq<bv8>
    /** Contents written so far to the temporary file. */
    var staged: seq<bv8>
    var tempExists: bool

    /** The temporary file is "replace" + a random part + "tmp" in the
        directory of the file to modify; it starts empty. */
    constructor(toModify: Nio.Path, randomPart: string, content: seq<bv8>)
      requires Nio.Parent(toModify).Some?
      ensures this.toModify == toModify
      ensures tempfile == Nio.ChildOf(Nio.Parent(toModify).value, "replace" + randomPart + "tmp")
      ensures !ioFailed && original == content && staged == [] && tempExists
    {
      this.toModify := toModify;
      tempfile := Nio.ChildOf(Nio.Parent(toModify).value, "replace" + randomPart + "tmp");
      ioFailed := false;
      original := content;
      staged := [];
      tempExists := true;
    }

    /** ioFailed(): set the flag; nothing ever clears it. */
    method IoFailed()
      modifies this
      ensures ioFailed
      ensures original == old(original) && staged == old(staged) && tempExists == old(tempExists)
    {
      ioFailed := true;
    }

    /** A write through the wrapping output stream: on failure the modifier is
        told and the exception goes on to the caller. */
    method Write(data: seq<bv8>, failure: Option<IOError>) returns (err: Option<IOError>)
      modifies this
      ensures err == failure
      ensures failure.None? ==> staged == old(staged) + data && ioFailed == old(ioFailed)
      ensures failure.Some? ==> staged == old(staged) && ioFailed
      ensures original == old(original) && tempExists == old(tempExists)
    {
      if failure.Some? {
        IoFailed();
        return failure;
      }
      staged := staged + data;
      return None;
    }

    /** close. */
    method Close(closeInput: Option<IOError>, closeOutput: Option<IOError>,
                 atomicMove: Option<IOError>, plainMove: Option<IOError>)
      returns (err: Option<CloseError>)
      modifies this
      ensures err == CloseSpec(old(ioFailed), closeInput, closeOutput, atomicMove, plainMove)
      ensures err.None? ==> original == old(staged) && !tempExists
      ensures err.Some? ==> original == old(original) && tempExists == old(tempExists)
      ensures ioFailed == old(ioFailed) && staged == old(staged)
    {
      var exception: Option<IOError> := if ioFailed then Some(IO_FAILED) else None;
      var suppressed: seq<IOError> := [];
      if closeInput.Some? {
        if exception.None? {
          exception := closeInput;
        } else {
          suppressed := suppressed + [closeInput.value];
        }
      }
      if closeOutput.Some? {
        if exception.None? {
          exception := closeOutput;
        } else {
          suppressed := suppressed + [closeOutput.value];
        }
      }
      ghost var failures := (if ioFailed then [IO_FAILED] else []) + Failures(closeInput) + Failures(closeOutput);
      assert exception.Some? <==> |failures| > 0;
      assert exception.Some? ==> [exception.value] + suppressed == failures;
      if exception.Some? {
        return Some(Aggregate(exception.value, suppressed));
      }
      var moveFailure: Option<IOError> := None;
      if atomicMove.Some? {
        if atomicMove.value.kind == AtomicMoveNotSupported {
          moveFailure := plainMove;
        } else {
          moveFailure := atomicMove;
        }
      }
      if moveFailure.Some? {
        return Some(RenameFailure(moveFailure.value));
      }
      original := staged;
      tempExists := false;
      return None;
    }
  }

  /** close throws before any move exactly when the flag is set or closing
      either side failed; every one of those failures is reported, the first
      as the exception and the others, in order, as suppressed. */
  lemma CloseReportsEveryFailure(ioFailed: bool, closeInput: Option<IOError>, closeOutput: Option<IOError>,
                                 atomicMove: Option<IOError>, plainMove: Option<IOError>)
    ensures var r := CloseSpec(ioFailed, closeInput, closeOutput, atomicMove, plainMove);
      (r.Some? && r.value.Aggregate?) <==> ioFailed || closeInput.Some? || closeOutput.Some?
    ensures var r := CloseSpec(ioFailed, closeInput, closeOutput, atomicMove, plainMove);
      r.Some? && r.value.Aggregate? ==>
        [r.value.primary] + r.value.suppressed
          == (if ioFailed then [IO_FAILED] else []) + Failures(closeInput) + Failures(closeOutput)
  {
    var failures := (if ioFailed then [IO_FAILED] else []) + Failures(closeInput) + Failures(closeOutput);
    if |failures| > 0 {
      assert [failures[0]] + failures[1..] == failures;
    }
  }

  /** The flag's exception comes first: once ioFailed is set, close reports
      it, whatever else happens. */
  lemma IoFailedWins(closeInput: Option<IOError>, closeOutput: Option<IOError>,
                     atomicMove: Option<IOError>, plainMove: Option<IOError>)
    ensures CloseSpec(true, closeInput, closeOutput, atomicMove, plainMove)
      == Some(Aggregate(IO_FAILED, Failures(closeInput) + Failures(closeOutput)))
  {
    var rest := Failures(closeInput) + Failures(closeOutput);
    assert ([IO_FAILED] + Failures(closeInput) + Failures(closeOutput))[1..] == rest;
  }

  /** The plain move is attempted only after an unsupported atomic move:
      otherwise its outcome has no influence. */
  lemma RetryOnlyWhenAtomicUnsupported(ioFailed: bool, closeInput: Option<IOError>, closeOutput: Option<IOError>,
                                       atomicMove: Option<IOError>, plain1: Option<IOError>, plain2: Option<IOError>)
    requires atomicMove.None? || atomicMove.value.kind != AtomicMoveNotSupported
    ensures CloseSpec(ioFailed, closeInput, closeOutput, atomicMove, plain1)
      == CloseSpec(ioFailed, closeInput, closeOutput, atomicMove, plain2)
  {
  }

  /** A RenameFailureException wraps the failure of the last move attempted. */
  lemma RenameFailureCause(ioFailed: bool, closeInput: Option<IOError>, closeOutput: Option<IOError>,
                           atomicMove: Option<IOError>, plainMove: Option<IOError>)
    ensures var r := CloseSpec(ioFailed, closeInput, closeOutput, atomicMove, plainMove);
      r.Some? && r.value.RenameFailure? <==>
        !ioFailed && closeInput.None? && closeOutput.None? && atomicMove.Some?
        && (atomicMove.value.kind == AtomicMoveNotSupported ==> plainMove.Some?)
    ensures var r := CloseSpec(ioFailed, closeInput, closeOutput, atomicMove, plainMove);
      r.Some? && r.value.RenameFailure? ==>
        r.value.cause == if atomicMove.value.kind == AtomicMoveNotSupported then plainMove.value else atomicMove.value
  {
  }

  /** new ContentModifier(toModify): the temporary file is created in the
      parent of the file to modify, so a path without a parent gets the
      NullPointerException and a failed creation (`createFailure`) its
      IOException; otherwise the modifier starts as the constructor says. */
  method Open(toModify: Nio.Path, randomPart: string, content: seq<bv8>,
              createFailure: Option<IOError>) returns (r: Result<Modifier, OpenError>)
    ensures Nio.Parent(toModify).None? ==> r == Failure(NoParent)
    ensures Nio.Parent(toModify).Some? && createFailure.Some? ==> r == Failure(TempFileFailed(createFailure.value))
    ensures r.Success? <==> Nio.Parent(toModify).Some? && createFailure.None?
    ensures r.Success? ==>
              fresh(r.value) && r.value.toModify == toModify
              && r.value.tempfile == Nio.ChildOf(Nio.Parent(toModify).value, "replace" + randomPart + "tmp")
              && !r.value.ioFailed && r.value.original == content
              && r.value.staged == [] && r.value.tempExists
  {
    var parent := Nio.Parent(toModify);
    if parent.None? {
      return Failure(NoParent);
    }
    if createFailure.Some? {
      return Failure(TempFileFailed(createFailure.value));
    }
    var m := new Modifier(toModify, randomPart, content);
    return Success(m);
  }

  /** The write/rename promise: a failed write leaves the original file as it
      was, and so does the close that follows, whatever its collaborators do. */
  method FailedWriteKeepsOriginal(m: Modifier, data: seq<bv8>, failure: IOError,
                                  closeInput: Option<IOError>, closeOutput: Option<IOError>,
                                  atomicMove: Option<IOError>, plainMove: Option<IOError>)
    returns (writeError: Option<IOError>, closeError: Option<CloseError>)
    modifies m
    ensures writeError == Some(failure)
    ensures closeError.Some? && closeError.value.Aggregate? && closeError.value.primary == IO_FAILED
    ensures m.original == old(m.original)
  {
    writeError := m.Write(data, Some(failure));
    closeError := m.Close(closeInput, closeOutput, atomicMove, plainMove);
  }
}
