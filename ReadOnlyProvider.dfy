/** The read-only file system provider (readonly/ReadOnlyFileSystemProvider):
    a proxy around another provider that refuses every operation able to change
    the file system and hands every other one, arguments unchanged, to the
    wrapped provider.

    The wrapped provider is a `Delegate` object that records the calls it
    receives and answers each with a reply fixed in advance; paths, URIs,
    attribute names and the other arguments that the proxy only passes on are
    strings.
 */
module ReadOnlyProvider {
  import opened Nio

  /** The options that make a channel open a write access: CREATE_NEW, WRITE
      and APPEND. CREATE and TRUNCATE_EXISTING are not among them. */
  const WRITE_OPTIONS: set<OpenOption> := {CREATE_NEW, WRITE, APPEND}

  /** One call of a FileSystemProvider method, with the arguments that matter
      to the proxy. Varargs option arrays are sequences; the channel openers
      take a Set. */
  datatype Op =
    | GetScheme
    | NewFileSystemFromUri(uri: string)
    | GetFileSystem(uri: string)
    | GetPath(uri: string)
    | NewFileSystemFromPath(path: string)
    | NewInputStream(path: string, streamOptions: seq<OpenOption>)
    | NewOutputStream(path: string, streamOptions: seq<OpenOption>)
    | NewFileChannel(path: string, options: set<OpenOption>)
    | NewAsynchronousFileChannel(path: string, options: set<OpenOption>)
    | NewByteChannel(path: string, options: set<OpenOption>)
    | NewDirectoryStream(dir: string)
    | CreateDirectory(dir: string)
    | CreateSymbolicLink(link: string, target: string)
    | CreateLink(link: string, existing: string)
    | Delete(path: string)
    | DeleteIfExists(path: string)
    | ReadSymbolicLink(link: string)
    | Copy(source: string, target: string)
    | Move(source: string, target: string)
    | IsSameFile(path: string, path2: string)
    | IsHidden(path: string)
    | GetFileStore(path: string)
    | CheckAccess(path: string)
    | GetFileAttributeView(path: string, viewType: string)
    | ReadAttributes(path: string, attributesType: string)
    | ReadAttributesByName(path: string, attributes: string)
    | SetAttribute(path: string, attribute: string)

  /** What a provider call ends with: a returned value (identified by a
      number), an IOException, or a ReadOnlyFileSystemException. */
  datatype Reply = Returned(value: nat) | ThrewIO(message: string) | ThrewReadOnly

  /** How the proxy treats a call. */
  datatype Access = Reject | Conditional(options: set<OpenOption>) | Forward

  /** The classification of every provider method, as the proxy's bodies
      make it: nine mutators always throw, the three channel openers throw
      depending on their options, and everything else, newInputStream
      included, is forwarded. */
  function Classify(op: Op): Access {
    match op
    case NewOutputStream(_, _) | CreateDirectory(_) | CreateSymbolicLink(_, _)
       | CreateLink(_, _) | Delete(_) | DeleteIfExists(_) | Copy(_, _) | Move(_, _)
       | SetAttribute(_, _) => Reject
    case NewFileChannel(_, options) => Conditional(options)
    case NewAsynchronousFileChannel(_, options) => Conditional(options)
    case NewByteChannel(_, options) => Conditional(options)
    case _ => Forward
  }

  /** The proxy refuses a call: an always-rejected method, or a channel opener
      whose options ask for write access. */
  predicate Rejected(op: Op) {
    match Classify(op)
    case Reject => true
    case Conditional(options) => options * WRITE_OPTIONS != {}
    case Forward => false
  }

  /** isWriteAccess: a search of the option set, in whatever order the set is
      iterated, for an option of WRITE_OPTIONS. */
  method IsWriteAccess(options: set<OpenOption>) returns (r: bool)
    ensures r <==> exists o :: o in options && o in WRITE_OPTIONS
  {
    var rest := options;
    while rest != {}
      invariant rest <= options
      invariant forall o :: o in options && o !in rest ==> o !in WRITE_OPTIONS
      decreases |rest|
    {
      var o :| o in rest;
      if o in WRITE_OPTIONS {
        return true;
      }
      rest := rest - {o};
    }
    return false;
  }

  /** Some option is a write option exactly when the option set meets
      WRITE_OPTIONS. */
  lemma WriteAccessMeets(options: set<OpenOption>)
    ensures (exists o :: o in options && o in WRITE_OPTIONS) <==> options * WRITE_OPTIONS != {}
  {
    if options * WRITE_OPTIONS != {} {
      var o :| o in options * WRITE_OPTIONS;
    }
    if exists o :: o in options && o in WRITE_OPTIONS {
      var o :| o in options && o in WRITE_OPTIONS;
      assert o in options * WRITE_OPTIONS;
    }
  }

  /** The wrapped provider: it answers each call with `answer` and keeps the
      list of the calls it received. */
  class Delegate {
    const answer: Op -> Reply
    var calls: seq<Op>

    constructor(answer: Op -> Reply)
      ensures this.answer == answer && calls == []
    {
      this.answer := answer;
      calls := [];
    }

    method Call(op: Op) returns (r: Reply)
      modifies this
      ensures r == answer(op) && calls == old(calls) + [op]
    {
      calls := calls + [op];
      r := answer(op);
    }
  }

  class ReadOnlyFileSystemProvider {
    const delegate: Delegate

    constructor(delegate: Delegate)
      ensures this.delegate == delegate
    {
      this.delegate := delegate;
    }

    /** Every provider method: a refused call throws ReadOnlyFileSystemException
        and the delegate never hears of it; any other call is passed on and
        its reply, value or exception, is returned as it is. */
    method Invoke(op: Op) returns (r: Reply)
      modifies delegate
      ensures Rejected(op) ==> r == ThrewReadOnly && delegate.calls == old(delegate.calls)
      ensures !Rejected(op) ==> r == delegate.answer(op) && delegate.calls == old(delegate.calls) + [op]
    {
      match Classify(op)
      case Reject =>
        r := ThrewReadOnly;
      case Conditional(options) =>
        var write := IsWriteAccess(options);
        assert Rejected(op) <==> write by {
          WriteAccessMeets(options);
        }
        if write {
          r := ThrewReadOnly;
        } else {
          r := delegate.Call(op);
        }
      case Forward =>
        r := delegate.Call(op);
    }
  }

  /** The write options are exactly CREATE_NEW, WRITE and APPEND: in particular
      neither CREATE, READ nor TRUNCATE_EXISTING asks for write access. */
  lemma WriteOptionsExactly(o: OpenOption)
    ensures o in WRITE_OPTIONS <==> o == CREATE_NEW || o == WRITE || o == APPEND
    ensures CREATE !in WRITE_OPTIONS && READ !in WRITE_OPTIONS && TRUNCATE_EXISTING !in WRITE_OPTIONS
  {
  }

  /** A channel opener is refused exactly when one of its options is a write
      option; the same options are refused by all three openers. */
  lemma ChannelRejectedIffWriteOption(path: string, options: set<OpenOption>)
    ensures Rejected(NewFileChannel(path, options))
      <==> exists o :: o in options && o in WRITE_OPTIONS
    ensures Rejected(NewAsynchronousFileChannel(path, options)) == Rejected(NewFileChannel(path, options))
    ensures Rejected(NewByteChannel(path, options)) == Rejected(NewFileChannel(path, options))
  {
    WriteAccessMeets(options);
  }

  /** newInputStream is never refused, even with write options; newOutputStream
      is refused even with none. */
  lemma StreamsIgnoreOptions(path: string, streamOptions: seq<OpenOption>)
    ensures !Rejected(NewInputStream(path, streamOptions))
    ensures Rejected(NewOutputStream(path, streamOptions))
  {
  }

  /** A channel opened with CREATE alone is forwarded: CREATE is not a write
      option, although the provider's test expects such a call to be refused. */
  lemma CreateAloneForwarded(path: string)
    ensures !Rejected(NewByteChannel(path, {CREATE}))
    ensures !Rejected(NewFileChannel(path, {CREATE, READ}))
  {
    assert {CREATE} * WRITE_OPTIONS == {};
    assert {CREATE, READ} * WRITE_OPTIONS == {};
  }
}
