/** The older copy of the read-only provider, in the root package
    (ReadOnlyFileSystemProvider). It keeps its own write-option set, a HashSet
    rather than an EnumSet, and its own bodies; this module states its rules
    on the same call vocabulary and proves that they are those of the newer
    provider.
 */
module LegacyReadOnlyProvider {
  import RO = ReadOnlyProvider
  import Nio

  /** The legacy write options: CREATE_NEW, WRITE and APPEND. */
  const WRITE_OPTIONS: set<Nio.OpenOption> := {Nio.CREATE_NEW, Nio.WRITE, Nio.APPEND}

  /** The legacy classification of every provider method. */
  function Classify(op: RO.Op): RO.Access {
    match op
    case NewOutputStream(_, _) => RO.Reject
    case NewFileChannel(_, options) => RO.Conditional(options)
    case NewAsynchronousFileChannel(_, options) => RO.Conditional(options)
    case NewByteChannel(_, options) => RO.Conditional(options)
    case CreateDirectory(_) => RO.Reject
    case CreateSymbolicLink(_, _) => RO.Reject
    case CreateLink(_, _) => RO.Reject
    case Delete(_) => RO.Reject
    case DeleteIfExists(_) => RO.Reject
    case Copy(_, _) => RO.Reject
    case Move(_, _) => RO.Reject
    case SetAttribute(_, _) => RO.Reject
    case _ => RO.Forward
  }

  predicate Rejected(op: RO.Op) {
    match Classify(op)
    case Reject => true
    case Conditional(options) => options * WRITE_OPTIONS != {}
    case Forward => false
  }

  /** isWriteAccess of the legacy provider: the same search, over the legacy
      set. */
  method IsWriteAccess(options: set<Nio.OpenOption>) returns (r: bool)
    ensures r <==> options * WRITE_OPTIONS != {}
  {
    var rest := options;
    while rest != {}
      invariant rest <= options
      invariant forall o :: o in options && o !in rest ==> o !in WRITE_OPTIONS
      decreases |rest|
    {
      var option :| option in rest;
      if option in WRITE_OPTIONS {
        assert option in options * WRITE_OPTIONS;
        return true;
      }
      rest := rest - {option};
    }
    return false;
  }

  /** Both providers refuse exactly the same calls: same write options, same
      always-refused methods, same conditional channel openers. */
  lemma SameRulesAsReadOnlyProvider(op: RO.Op)
    ensures WRITE_OPTIONS == RO.WRITE_OPTIONS
    ensures Classify(op) == RO.Classify(op)
    ensures Rejected(op) <==> RO.Rejected(op)
  {
  }
}
