/** The read-only file system (readonly/ReadOnlyFileSystem): a wrapper around
    another file system that says it is read only and whose provider is the
    wrapped file system's provider inside a read-only provider; every other
    method is answered by the wrapped file system.

    Paths that `getPath` returns are the wrapped file system's own: operations
    on them go to its provider, not through the read-only one.
 */
module ReadOnlyFileSystem {
  import RO = ReadOnlyProvider

  /** The FileSystem methods the wrapper forwards, with their arguments. */
  datatype Query =
    | GetSeparator
    | GetRootDirectories
    | GetFileStores
    | SupportedFileAttributeViews
    | GetPath(first: string, more: seq<string>)
    | GetPathMatcher(syntaxAndPattern: string)
    | GetUserPrincipalLookupService
    | NewWatchService

  /** The wrapped file system: its provider, whether it is open, and the
      answer it gives to each query. */
  class DelegateFileSystem {
    const provider: RO.Delegate
    const answer: Query -> RO.Reply
    var open: bool

    constructor(provider: RO.Delegate, answer: Query -> RO.Reply)
      ensures this.provider == provider && this.answer == answer && open
    {
      this.provider := provider;
      this.answer := answer;
      open := true;
    }

    method Close()
      modifies this
      ensures !open
    {
      open := false;
    }
  }

  class ReadOnlyFileSystem {
    const delegate: DelegateFileSystem
    const provider: RO.ReadOnlyFileSystemProvider

    /** The provider wraps the delegate's provider. */
    ghost predicate Valid() {
      provider.delegate == delegate.provider
    }

    /** The read-only provider is built once, here, around the delegate's
        provider; both fields are fixed from then on. */
    constructor(delegate: DelegateFileSystem)
      ensures this.delegate == delegate
      ensures fresh(provider) && Valid()
    {
      this.delegate := delegate;
      provider := new RO.ReadOnlyFileSystemProvider(delegate.provider);
    }

    /** provider(): every call yields the same read-only provider, which
        wraps the delegate's provider. */
    method Provider() returns (p: RO.ReadOnlyFileSystemProvider)
      requires Valid()
      ensures p == provider && p.delegate == delegate.provider
    {
      p := provider;
    }

    /** isReadOnly() holds whatever the wrapped file system says. */
    method IsReadOnly() returns (r: bool)
      ensures r
    {
      r := true;
    }

    /** close() closes the wrapped file system. */
    method Close()
      modifies delegate
      ensures !delegate.open
    {
      delegate.Close();
    }

    /** isOpen() is the wrapped file system's answer. */
    method IsOpen() returns (r: bool)
      ensures r == delegate.open
    {
      r := delegate.open;
    }

    /** Every other method returns the wrapped file system's answer. */
    method Forward(q: Query) returns (r: RO.Reply)
      ensures r == delegate.answer(q)
    {
      r := delegate.answer(q);
    }
  }

  /** Through the wrapper's provider, a mutating call never reaches the
      wrapped file system's provider, while a read is answered by it. */
  method DeleteThroughWrapper(fs: ReadOnlyFileSystem, path: string, readPath: string)
    returns (deleted: RO.Reply, hidden: RO.Reply)
    requires fs.Valid()
    modifies fs.delegate.provider
    ensures deleted == RO.ThrewReadOnly
    ensures hidden == fs.delegate.provider.answer(RO.IsHidden(readPath))
    ensures fs.delegate.provider.calls == old(fs.delegate.provider.calls) + [RO.IsHidden(readPath)]
  {
    var p := fs.Provider();
    deleted := p.Invoke(RO.Delete(path));
    hidden := p.Invoke(RO.IsHidden(readPath));
  }
}
