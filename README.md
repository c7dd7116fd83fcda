# java7-fs-more, modelled in Dafny

This project models the core of java7-fs-more, a Java library of helpers on top of
`java.nio.file`. It covers four groups of sequential logic:

- **Recursive copy and deletion.**
  - `MoreFiles.copyRecursive` and `MoreFiles.deleteRecursive`.
  - The four file visitors they hand to `Files.walkFileTree`: fail-fast and keep-going, for copying and for deleting.
  - The option and existence checks of `MoreFiles.openZip`.
  - The ancestor loop of `MoreFiles.doCreateDirectories`.
- **The read-only proxy.**
  - Both copies of `ReadOnlyFileSystemProvider`.
  - `readonly/ReadOnlyFileSystem`.
- **Cross-file-system path resolution** (`MorePaths.resolve`).
- **Small codecs and one state machine.**
  - `PosixModes.intModeToPosix`, with the octal mode bits of POSIX.1 `<sys/stat.h>` (S_IRUSR = 0400 … S_IXOTH = 01).
  - `ModeParser`, a subset of the symbolic-mode grammar of the POSIX `chmod` utility.
  - `PngFileTypeDetector`, the 8-byte signature of section 3.1 of RFC 2083.
  - The close-and-rename logic of `ContentModifier`.

## How the file system is modelled

The JDK's file-system calls become an in-memory model (modules `Nio`, `FileWalk` and `Walker`).

**Paths.** A path is a record with these fields:
- a file-system id and a provider id;
- an absolute flag;
- an optional root;
- a sequence of names.

**The volume.** A `Storage` object maps paths to entries:
- an entry is a directory, a regular file, a symbolic link or another kind of file;
- each path also has a map of POSIX permissions;
- a fault function is injected. When it names a path, every operation on that path fails with that I/O error. Otherwise `delete`, `copy`, `createDirectories` and `setPosixFilePermissions` behave as the JDK documents: a non-empty directory is not deleted, `copy` does not overwrite a target, and `createDirectories` creates the missing ancestors.

**The walk.** `Files.walkFileTree` is replayed over a tree snapshot (`FileWalk.Walk`):
- `preVisitDirectory` comes first, then the children in listing order, then `postVisitDirectory(dir, exc)`;
- a directory that cannot be opened gives `visitFileFailed`;
- a listing that breaks part-way gives `postVisitDirectory` with its exception.

**Visitors, policies and top-level operations.**
- Each visitor is a class whose hooks change the storage and the visitor's fields. Each hook is proved against a pure hook function.
- `Walker.WalkFileTree` is proved against `Walker.Run`, which folds the hooks over the walk and stops at the first throw.
- The policies are proved on `Run`:
  - fail-fast stops at the first error and throws it;
  - keep-going appends every error, in encounter order, to the list that stands in for `addSuppressed`.
- The `MoreFiles` methods are proved against `…Spec` functions of the old entries. The lemmas about those functions state what the operations promise.

## Model

In the source column, paths start at `src/main/java/com/github/fge/filesystem/` (code) or `src/test/java/com/github/fge/filesystem/` (tests).

| member | source | states |
|---|---|---|
| MorePaths.Resolve | src/main/java/com/github/fge/filesystem/MorePaths.java:29-56 | The result is a resolved path iff the two paths share a file system or a provider, and it then lies on path1's file system. A refusal concerns only an absolute path2. |
| MorePaths.ResolveIntended | src/test/java/com/github/fge/filesystem/MorePathsTest.java:140-217 | The intended resolution never gives null. A resolved path lies on path1's file system. Only a path of another file system and another provider is ever refused. |
| MorePaths.ResolveBranches | src/main/java/com/github/fge/filesystem/MorePaths.java:29-50 | The branches are tried in order: same file system, same provider, relative, rootless. A resolved path comes exactly from the first two. The stub's null comes exactly from a relative path across providers. "No root" and "incompatible root" split the absolute cross-provider paths by whether they have a root. |
| MorePaths.SameFileSystemOrProvider | src/main/java/com/github/fge/filesystem/MorePaths.java:29-33 | On the same file system or the same provider, the result is path1's native resolution of path2. It stays on path1's file system, and the names of a plain relative path2 are appended to path1's. |
| MorePaths.RootsIgnored | src/main/java/com/github/fge/filesystem/MorePaths.java:41-50 | The loop over path1's root directories has no effect: the result is the same whatever the roots are. |
| MorePaths.MatchingRootRefused | src/main/java/com/github/fge/filesystem/MorePaths.java:44-50 | As written, an absolute path "/bar" on another provider is refused with "incompatible root" even though "/" is one of path1's roots. The intended resolution gives "/bar" on path1's file system. |
| MorePaths.RelativeAcrossProvidersIsNull | src/main/java/com/github/fge/filesystem/MorePaths.java:53-56 | As written, a relative path across providers, including the empty one, resolves to null. The intended resolution gives path1 extended by the names, and path1 itself for the empty path. |
| MorePaths.IntendedRelative | src/test/java/com/github/fge/filesystem/MorePathsTest.java:183-217 | Intended resolution of a rootless relative path: path1 with path2's names appended; path1 itself when path2 is empty. |
| MorePaths.IntendedAbsolute | src/test/java/com/github/fge/filesystem/MorePathsTest.java:140-181 | Intended resolution of an absolute cross-provider path succeeds iff its root is one of path1's roots. The result is on path1's file system and provider, with path2's root and names. A rootless absolute path gives "no root". |
| MorePaths.IntendedExtendsWritten | src/main/java/com/github/fge/filesystem/MorePaths.java:29-50 | Where the code is complete (same file system or provider, or an absolute path with no root or an unknown root), the intended and written resolutions agree. |
| MorePaths.ResolveEachAppends | src/test/java/com/github/fge/filesystem/MorePathsTest.java:199-217 | Resolving the names of path2 one by one against path1 appends them all, in order. |
| PosixModes.Ordinal | src/main/java/com/github/fge/filesystem/posix/PosixModes.java:15-16 | Each permission has an index below 9 in the PosixFilePermission declaration order, and the table holds it there. |
| PosixModes.IntModeToPosix | src/main/java/com/github/fge/filesystem/posix/PosixModes.java:39-54 | Invalid-mode error iff a bit outside 0777 is set. Otherwise the nine-step shifting loop yields ModeToPermissions of the int's value. |
| PosixModes.ValidIffInRange | src/main/java/com/github/fge/filesystem/posix/PosixModes.java:41-42 | The bit test accepts exactly the Java ints 0..511. Every negative int and every value from 01000 up is rejected. |
| PosixModes.MemberIffBit | src/main/java/com/github/fge/filesystem/posix/PosixModes.java:47-51 | PERMISSIONS[i] is in the result iff bit 8-i of the mode is set. |
| PosixModes.BitOfPermissionsToMode | src/main/java/com/github/fge/filesystem/posix/PosixModes.java:47-51 | The octal encoding of a permission set (the S_I* values) has bit k set iff PERMISSIONS[8-k] is in the set. |
| PosixModes.RoundTripMode | src/main/java/com/github/fge/filesystem/posix/PosixModes.java:47-51 | Encoding the decoded permissions of any mode 0..511 gives the mode back. |
| PosixModes.RoundTripPermissions | src/main/java/com/github/fge/filesystem/posix/PosixModes.java:47-51 | Decoding the encoding of any permission set gives the set back. |
| PosixModes.Injective | src/main/java/com/github/fge/filesystem/posix/PosixModes.java:47-51 | Two modes in 0..511 with the same permissions are equal. |
| PosixModes.SizeIsBitCount | src/main/java/com/github/fge/filesystem/posix/PosixModes.java:47-51 | The number of permissions equals the number of set bits among the low nine. |
| PosixModes.LowPermissionsCount | src/main/java/com/github/fge/filesystem/posix/PosixModes.java:47-51 | After n loop steps, the set holds exactly as many permissions as the n low bits have ones. |
| PosixModes.Extremes | src/main/java/com/github/fge/filesystem/posix/PosixModes.java:44-53 | Mode 0 gives the empty set; mode 0777 gives all nine permissions. |
| PosixModes.Mode0755 | src/test/java/com/github/fge/filesystem/posix/PosixModesTest.java:43 | 0755 is rwxr-xr-x. |
| PosixModes.Mode0640 | src/test/java/com/github/fge/filesystem/posix/PosixModesTest.java:45 | 0640 is rw-r-----. |
| PosixModes.Mode0404 | src/test/java/com/github/fge/filesystem/posix/PosixModesTest.java:46 | 0404 is r-----r--. |
| PosixModes.Mode0071 | src/test/java/com/github/fge/filesystem/posix/PosixModesTest.java:47 | 0071 is ---rwx--x. |
| PosixModes.Mode0400 | src/main/java/com/github/fge/filesystem/posix/PosixModes.java:47-51 | 0400 is exactly OWNER_READ. |
| PosixModes.Mode0001 | src/main/java/com/github/fge/filesystem/posix/PosixModes.java:47-51 | 01 is exactly OTHERS_EXECUTE. |
| ModeParser.WhoLetter | src/main/java/com/github/fge/filesystem/posix/ModeParser.java:72-85 | u, g and o get ordinals 0, 1 and 2. 'a' and only 'a' is unsupported. Every other character is invalid. |
| ModeParser.WhatLetter | src/main/java/com/github/fge/filesystem/posix/ModeParser.java:88-101 | r, w and x get ordinals 0, 1 and 2. 'X' and only 'X' is unsupported. Every other character is invalid. |
| ModeParser.WhoLetterValid | src/main/java/com/github/fge/filesystem/posix/ModeParser.java:72-85 | A who letter is accepted iff it is one of "ugo". |
| ModeParser.WhatLetterValid | src/main/java/com/github/fge/filesystem/posix/ModeParser.java:88-101 | A what letter is accepted iff it is one of "rwx". |
| ModeParser.PermissionSet.Add | src/main/java/com/github/fge/filesystem/posix/ModeParser.java:103 | Adding a permission puts it in the caller's set and removes nothing. |
| ModeParser.AddForClass | src/main/java/com/github/fge/filesystem/posix/ModeParser.java:86-104 | The inner loop adds permission 3·who+what for each what letter up to the first bad one. It then stops with that letter's error, or with none. |
| ModeParser.ModifySet | src/main/java/com/github/fge/filesystem/posix/ModeParser.java:62-106 | The target gains exactly what ModifySetSpec grants, with nothing removed, and the error is ModifySetSpec's. |
| ModeParser.ExitAtWho | src/main/java/com/github/fge/filesystem/posix/ModeParser.java:70-85 | At the first bad who letter, modifySet stops with that letter's error. The grants of all earlier who letters stay. |
| ModeParser.ExitAtWhat | src/main/java/com/github/fge/filesystem/posix/ModeParser.java:86-101 | A bad what letter stops modifySet while the first who letter is being processed. Only the what letters before it have been granted. |
| ModeParser.GrantMember | src/main/java/com/github/fge/filesystem/posix/ModeParser.java:86-104 | A permission is granted iff its who class letter is in who and its what letter is in what. |
| ModeParser.GrantEverything | src/main/java/com/github/fge/filesystem/posix/ModeParser.java:44 | "ugo" with "rwx" grants all nine permissions. |
| ModeParser.ModifySetOutcome | src/main/java/com/github/fge/filesystem/posix/ModeParser.java:62-106 | modifySet never grants beyond the full grant. It succeeds iff every who letter is valid and, when who is non-empty, every what letter is valid. On success it grants exactly the full grant. |
| ModeParser.ModifySetExample | src/main/java/com/github/fge/filesystem/posix/ModeParser.java:62-106 | "ug" with "rw" grants owner and group read and write. |
| ModeParser.ModifySetNoRollback | src/main/java/com/github/fge/filesystem/posix/ModeParser.java:70-104 | An error part-way through keeps the earlier additions. "ua"/"r" keeps OWNER_READ and raises UnsupportedOperation; "g"/"rq" keeps GROUP_READ and raises InvalidModeInstruction. |
| ModeParser.IndexOf | src/main/java/com/github/fge/filesystem/posix/ModeParser.java:33-34 | indexOf gives -1 iff the character is absent. Otherwise it gives the position of its first occurrence. |
| ModeParser.Decompose | src/main/java/com/github/fge/filesystem/posix/ModeParser.java:33-52 | A refusal is InvalidModeInstruction carrying the instruction, and an instruction with neither '+' nor '-' is refused. On success, who is non-empty, and what is a non-empty proper suffix of the instruction. |
| ModeParser.DecomposeOutcome | src/main/java/com/github/fge/filesystem/posix/ModeParser.java:33-52 | An instruction is refused, with itself as the message, iff it has neither '+' nor '-'. Otherwise it goes to toAdd iff it contains '+'. |
| ModeParser.DecomposeInverse | src/main/java/com/github/fge/filesystem/posix/ModeParser.java:43-52 | who, the operator and what put back together give the instruction. who is "ugo" when the operator leads. |
| ModeParser.DecomposeCompose | src/main/java/com/github/fge/filesystem/posix/ModeParser.java:43-52 | Splitting who + operator + what gives back who, what and the side, when who holds no operator and, for '-', what holds no '+'. |
| ModeParser.ParseOne | src/main/java/com/github/fge/filesystem/posix/ModeParser.java:29-58 | The error is ParseOneSpec's. Each set gains exactly its part of ParseOneSpec: both parts when the two sets are the same object. |
| ModeParser.OneSideOnly | src/main/java/com/github/fge/filesystem/posix/ModeParser.java:43-52 | An instruction containing '+' only adds; one without '+' only removes. |
| ModeParser.LeadingOperator | src/main/java/com/github/fge/filesystem/posix/ModeParser.java:49 | "-what" removes for all of u, g and o. |
| ModeParser.RefusedInstructions | src/test/java/com/github/fge/filesystem/posix/ModeParserTest.java:16-43 | "", "ur" and "u+" are refused with InvalidModeInstruction carrying the instruction, and nothing is granted. |
| ModeParser.UgPlusRw | src/main/java/com/github/fge/filesystem/posix/ModeParser.java:29-58 | "ug+rw" adds owner and group read and write. |
| ModeParser.OMinusX | src/main/java/com/github/fge/filesystem/posix/ModeParser.java:29-58 | "o-x" removes OTHERS_EXECUTE. |
| ModeParser.Parse | src/main/java/com/github/fge/filesystem/posix/ModeParser.java:20-26 | The error is that of ParseSpec on the comma split. The sets gain exactly ParseSpec's grants, instruction by instruction and left to right. |
| ModeParser.PiecesJoin | src/main/java/com/github/fge/filesystem/posix/ModeParser.java:24 | Re-joining the comma-free pieces with commas gives the string back. |
| ModeParser.JavaSplitShape | src/main/java/com/github/fge/filesystem/posix/ModeParser.java:24 | The split keeps the pieces up to the last non-empty one. Only trailing empty pieces are dropped. |
| ModeParser.TrailingCommaIgnored | src/main/java/com/github/fge/filesystem/posix/ModeParser.java:24 | A trailing comma does not change the split of a non-empty string. |
| ModeParser.EmptyAndCommaOnly | src/main/java/com/github/fge/filesystem/posix/ModeParser.java:20-26 | parse("") refuses the empty instruction; parse(",") does nothing. |
| ModeParser.SplitPair | src/main/java/com/github/fge/filesystem/posix/ModeParser.java:24 | "a,b" splits into [a, b] when neither part has a comma and b is non-empty. |
| ModeParser.ParseStopsAtError | src/main/java/com/github/fge/filesystem/posix/ModeParser.java:24-25 | After the first refused instruction, the rest are not applied. |
| ModeParser.ParseAppend | src/main/java/com/github/fge/filesystem/posix/ModeParser.java:24-25 | Parsing two instruction lists one after the other is parsing their concatenation. |
| ModeParser.ParseSucceedsIff | src/main/java/com/github/fge/filesystem/posix/ModeParser.java:24-25 | parse succeeds iff every instruction does. |
| ModeParser.ParseExample | src/main/java/com/github/fge/filesystem/posix/ModeParser.java:20-26 | ["ug+rw", "o-x"] adds owner and group read and write, and removes OTHERS_EXECUTE. |
| PngFileTypeDetector.ProbeContentType | src/main/java/com/github/fge/filesystem/ftd/PngFileTypeDetector.java:23-37 | The only answer besides null is "image/png", and it is given only after a read of the full 8 bytes. |
| PngFileTypeDetector.ProbeIffSignature | src/main/java/com/github/fge/filesystem/ftd/PngFileTypeDetector.java:32-36 | "image/png" iff the bytes read are exactly the 8-byte signature; null otherwise. |
| PngFileTypeDetector.ShortReadUnknown | src/main/java/com/github/fge/filesystem/ftd/PngFileTypeDetector.java:32-33 | A read of fewer than 8 bytes gives null, even for a prefix of the signature. |
| PngFileTypeDetector.FileIsPngIffSignaturePrefix | src/main/java/com/github/fge/filesystem/ftd/PngFileTypeDetector.java:23-37 | With a read that delivers as much as it can, a file is PNG iff it starts with the signature. |
| PngFileTypeDetector.OnlyTheSignatureIsRead | src/main/java/com/github/fge/filesystem/ftd/PngFileTypeDetector.java:27-34 | Bytes after the eighth never change the answer. |
| PngFileTypeDetector.SignatureInDecimal | src/main/java/com/github/fge/filesystem/ftd/PngFileTypeDetector.java:13-21 | The signature is 137 80 78 71 13 10 26 10 (89 50 4E 47 0D 0A 1A 0A). |
| PngFileTypeDetector.FullRead | src/main/java/com/github/fge/filesystem/ftd/PngFileTypeDetector.java:32 | One read delivers a prefix of the file, at most 8 bytes. |
| ContentModifier.AccessorsMatchMode | src/main/java/com/github/fge/filesystem/content/ContentModifier.java:55-73 | Streams are served iff the file was opened as binary, and reader and writer iff it was opened as text. A refusal says "file opened as" and names the mode the file was opened in. |
| ContentModifier.Modifier.constructor | src/main/java/com/github/fge/filesystem/content/ContentModifier.java:47-53 | For a file that has a parent, the temporary file is "replace…tmp" in that parent. The flag starts cleared and the content is untouched. The failing cases are in Open. |
| ContentModifier.Open | src/main/java/com/github/fge/filesystem/content/ContentModifier.java:47-53 | A path without a parent gets createTempFile's NullPointerException, and a failed creation its IOException. Otherwise the result is a new modifier whose temporary file is "replace…tmp" in the parent of the file to modify, with the flag cleared and the content untouched. |
| ContentModifier.Modifier.IoFailed | src/main/java/com/github/fge/filesystem/content/ContentModifier.java:75-78 | Sets the flag and changes nothing else. |
| ContentModifier.Modifier.Write | src/main/java/com/github/fge/filesystem/content/ContentOutputStream.java:22-30 | A successful write appends to the staged content. A failed write is rethrown, sets the flag and stages nothing. The flag is never cleared. |
| ContentModifier.Modifier.Close | src/main/java/com/github/fge/filesystem/content/ContentModifier.java:86-128 | Throws CloseSpec's error. On success the staged content replaces the original and the temporary file is gone; on any error the original is unchanged. |
| ContentModifier.CloseReportsEveryFailure | src/main/java/com/github/fge/filesystem/content/ContentModifier.java:90-114 | close throws the aggregate iff the flag is set or a close fails. Its primary followed by its suppressed exceptions are: the flag's exception if the flag is set, then the input-close failure, then the output-close failure. |
| ContentModifier.IoFailedWins | src/main/java/com/github/fge/filesystem/content/ContentModifier.java:90-93 | With the flag set, the flag's exception is the one thrown, and the close failures are attached to it in order. |
| ContentModifier.RetryOnlyWhenAtomicUnsupported | src/main/java/com/github/fge/filesystem/content/ContentModifier.java:116-124 | The plain move is tried only after AtomicMoveNotSupported. Otherwise its outcome cannot matter. |
| ContentModifier.RenameFailureCause | src/main/java/com/github/fge/filesystem/content/ContentModifier.java:116-127 | A RenameFailure is thrown iff nothing failed before and the move failed (the plain retry, when the atomic move was unsupported). Its cause is that move failure. |
| ContentModifier.FailedWriteKeepsOriginal | src/main/java/com/github/fge/filesystem/content/ContentModifier.java:113-114 | After a failed write, close throws the flag's aggregate and the original content is kept. |
| ReadOnlyProvider.IsWriteAccess | src/main/java/com/github/fge/filesystem/readonly/ReadOnlyFileSystemProvider.java:256-263 | True iff some option is one of CREATE_NEW, WRITE, APPEND. |
| ReadOnlyProvider.WriteAccessMeets | src/main/java/com/github/fge/filesystem/readonly/ReadOnlyFileSystemProvider.java:256-263 | Some option is a write option iff the options intersect the write-option set. |
| ReadOnlyProvider.WriteOptionsExactly | src/main/java/com/github/fge/filesystem/readonly/ReadOnlyFileSystemProvider.java:34-38 | The write options are exactly CREATE_NEW, WRITE and APPEND. CREATE, READ and TRUNCATE_EXISTING are not among them. |
| ReadOnlyProvider.ReadOnlyFileSystemProvider.Invoke | src/main/java/com/github/fge/filesystem/readonly/ReadOnlyFileSystemProvider.java:47-254 | A rejected call throws ReadOnlyFileSystemException and does not reach the delegate. Any other call is passed to the delegate once, unchanged, and returns exactly the delegate's reply. |
| ReadOnlyProvider.ChannelRejectedIffWriteOption | src/main/java/com/github/fge/filesystem/readonly/ReadOnlyFileSystemProvider.java:95-127 | The three channel openers are rejected iff an option is a write option, with the same rule for each. |
| ReadOnlyProvider.StreamsIgnoreOptions | src/main/java/com/github/fge/filesystem/readonly/ReadOnlyFileSystemProvider.java:80-93 | newInputStream is forwarded whatever its options; newOutputStream is always rejected. |
| ReadOnlyProvider.CreateAloneForwarded | src/main/java/com/github/fge/filesystem/readonly/ReadOnlyFileSystemProvider.java:34-38 | Opening a channel with CREATE alone, or with CREATE and READ, is forwarded. |
| LegacyReadOnlyProvider.IsWriteAccess | src/main/java/com/github/fge/filesystem/ReadOnlyFileSystemProvider.java:248-255 | True iff the options intersect {CREATE_NEW, WRITE, APPEND}. |
| LegacyReadOnlyProvider.SameRulesAsReadOnlyProvider | src/main/java/com/github/fge/filesystem/ReadOnlyFileSystemProvider.java:36-246 | The older copy has the same write options, classifies every call the same way and rejects exactly the same calls. |
| ReadOnlyFileSystem.ReadOnlyFileSystem.constructor | src/main/java/com/github/fge/filesystem/readonly/ReadOnlyFileSystem.java:31-35 | Keeps the wrapped file system and builds one read-only provider around the wrapped provider. |
| ReadOnlyFileSystem.ReadOnlyFileSystem.Provider | src/main/java/com/github/fge/filesystem/readonly/ReadOnlyFileSystem.java:37-41 | Always returns that one read-only provider, built around the wrapped provider. |
| ReadOnlyFileSystem.ReadOnlyFileSystem.IsReadOnly | src/main/java/com/github/fge/filesystem/readonly/ReadOnlyFileSystem.java:56-60 | Always true. |
| ReadOnlyFileSystem.ReadOnlyFileSystem.Close | src/main/java/com/github/fge/filesystem/readonly/ReadOnlyFileSystem.java:43-48 | Closing the wrapper closes the wrapped file system. |
| ReadOnlyFileSystem.ReadOnlyFileSystem.IsOpen | src/main/java/com/github/fge/filesystem/readonly/ReadOnlyFileSystem.java:50-54 | Answers whether the wrapped file system is open. |
| ReadOnlyFileSystem.ReadOnlyFileSystem.Forward | src/main/java/com/github/fge/filesystem/readonly/ReadOnlyFileSystem.java:62-110 | Separator, roots, stores, views, getPath, matcher, principal lookup and watch service are answered by the wrapped file system, unchanged. |
| ReadOnlyFileSystem.DeleteThroughWrapper | src/main/java/com/github/fge/filesystem/readonly/ReadOnlyFileSystemProvider.java:161-165 | Through the wrapper's provider, a delete throws ReadOnlyFileSystemException and never reaches the wrapped provider. A read call (isHidden) reaches it once and returns its answer. |
| FileWalk.Collect | src/main/java/com/github/fge/filesystem/deletion/KeepGoingDeletionVisitor.java:56-61 | A keep-going hook never lets an I/O error escape. Only the UnsupportedOperationException can still be thrown. |
| FileWalk.RecursiveException.AddSuppressed | src/main/java/com/github/fge/filesystem/copy/KeepGoingCopyVisitor.java:94 | addSuppressed appends the exception at the end, keeping encounter order. |
| FileWalk.CleanIsComplete | src/main/java/com/github/fge/filesystem/MoreFiles.java:143 | A tree without listing failures produces no walk errors, and the walk reaches every one of its paths. |
| Walker.WalkFileTree | src/main/java/com/github/fge/filesystem/MoreFiles.java:143 | Walking with a visitor ends in exactly Run's throw and state: the hooks in walk order, stopping at the first throw. Permissions are unchanged. |
| Walker.ThrownEndsWalk | src/main/java/com/github/fge/filesystem/copy/FailFastCopyVisitor.java:74-80 | Once a hook throws, the rest of the walk changes nothing. |
| Walker.RunAppend | src/main/java/com/github/fge/filesystem/MoreFiles.java:143 | Running two walk segments one after the other, stopping if the first throws, is running their concatenation. |
| Copy.Relativize | src/main/java/com/github/fge/filesystem/copy/FailFastCopyVisitor.java:53 | src.relativize(p) is a rootless relative path whose names, after src's, are p's. |
| Copy.Destination | src/main/java/com/github/fge/filesystem/copy/FailFastCopyVisitor.java:53-54 | The mapped path is under dst, as deep below dst as p is below src. |
| Copy.DestinationIsIntendedResolve | src/main/java/com/github/fge/filesystem/copy/FailFastCopyVisitor.java:53-54 | The mapping is the intended resolve(dst, src.relativize(p)). src itself maps to dst. |
| Copy.DestinationInjective | src/main/java/com/github/fge/filesystem/copy/KeepGoingCopyVisitor.java:60-61 | Distinct sources map to distinct destinations, and the mapping preserves which paths lie under which. |
| Copy.WrittenResolveLosesCrossProviderCopy | src/main/java/com/github/fge/filesystem/copy/FailFastCopyVisitor.java:53-57 | Across providers, the written resolve gives null for every visited path, where the intended one resolves. |
| Copy.WrittenResolveWithinProvider | src/main/java/com/github/fge/filesystem/copy/FailFastCopyVisitor.java:53-54 | On one file system or one provider, the written resolve already maps every entry to its destination. |
| Copy.HookBookkeeping | src/main/java/com/github/fge/filesystem/copy/FailFastCopyVisitor.java:53-69 | After a directory or a regular file is visited, currentSrc and currentDst hold its relative path and its destination, in both policies. A non-regular file throws UnsupportedOperation. |
| Copy.HookEffects | src/main/java/com/github/fge/filesystem/copy/KeepGoingCopyVisitor.java:55-106 | preVisitDirectory creates the destination directory, and visitFile copies a regular file onto a free destination. Either throws (fail-fast) or appends (keep-going) exactly the error of that operation. The two failure hooks leave the entries alone. When fail-fast does not throw an I/O error, keep-going does the same thing. |
| Copy.FailFastCopyVisitor.constructor | src/main/java/com/github/fge/filesystem/copy/FailFastCopyVisitor.java:42-46 | Keeps src and dst; nothing has been visited yet. |
| Copy.FailFastCopyVisitor.Map | src/main/java/com/github/fge/filesystem/copy/FailFastCopyVisitor.java:53-54 | Sets currentSrc to the relative path and currentDst to its destination. |
| Copy.FailFastCopyVisitor.PreVisitDirectory | src/main/java/com/github/fge/filesystem/copy/FailFastCopyVisitor.java:48-59 | Matches the fail-fast hook: maps the directory and creates its destination, throwing createDirectories' error. |
| Copy.FailFastCopyVisitor.VisitFile | src/main/java/com/github/fge/filesystem/copy/FailFastCopyVisitor.java:61-72 | Matches the fail-fast hook: refuses a non-regular entry before touching anything. Otherwise it maps the file and copies it, throwing the copy's error. |
| Copy.FailFastCopyVisitor.VisitFileFailed | src/main/java/com/github/fge/filesystem/copy/FailFastCopyVisitor.java:74-80 | Rethrows the walker's exception. |
| Copy.FailFastCopyVisitor.PostVisitDirectory | src/main/java/com/github/fge/filesystem/copy/FailFastCopyVisitor.java:82-90 | Rethrows a listing exception; otherwise continues. |
| Copy.KeepGoingCopyVisitor.constructor | src/main/java/com/github/fge/filesystem/copy/KeepGoingCopyVisitor.java:47-53 | Keeps src, dst and the shared exception; nothing has been visited yet. |
| Copy.KeepGoingCopyVisitor.Map | src/main/java/com/github/fge/filesystem/copy/KeepGoingCopyVisitor.java:60-61 | The same mapping as the fail-fast visitor. |
| Copy.KeepGoingCopyVisitor.PreVisitDirectory | src/main/java/com/github/fge/filesystem/copy/KeepGoingCopyVisitor.java:55-70 | Matches the keep-going hook: a createDirectories failure is appended and the walk continues. |
| Copy.KeepGoingCopyVisitor.VisitFile | src/main/java/com/github/fge/filesystem/copy/KeepGoingCopyVisitor.java:72-87 | Matches the keep-going hook: a non-regular entry still throws. A copy failure is appended and the walk continues. |
| Copy.KeepGoingCopyVisitor.VisitFileFailed | src/main/java/com/github/fge/filesystem/copy/KeepGoingCopyVisitor.java:89-96 | Appends the walker's exception and continues. |
| Copy.KeepGoingCopyVisitor.PostVisitDirectory | src/main/java/com/github/fge/filesystem/copy/KeepGoingCopyVisitor.java:98-106 | Appends a listing exception, if any, and continues. |
| Deletion.KeepGoingNeverThrows | src/main/java/com/github/fge/filesystem/deletion/KeepGoingDeletionVisitor.java:44-90 | No keep-going deletion hook throws. Each hook appends at most one error, leaves currentSrc and currentDst alone, and removes at most its own path. |
| Deletion.PoliciesPerHook | src/main/java/com/github/fge/filesystem/deletion/FailFastDeletionVisitor.java:39-72 | For postVisitDirectory with a listing exception: fail-fast still deletes the directory and drops the exception, while keep-going appends it and skips the directory. For every other hook, keep-going does what fail-fast does, appending what fail-fast throws. |
| Deletion.VisitFileDeletesOnlyIt | src/main/java/com/github/fge/filesystem/deletion/FailFastDeletionVisitor.java:48-55 | visitFile deletes exactly the entry itself (a symbolic link, not its target). It throws iff the delete fails, and then changes nothing. |
| Deletion.FailFastDeletionVisitor.PreVisitDirectory | src/main/java/com/github/fge/filesystem/deletion/FailFastDeletionVisitor.java:39-46 | Continues, changing nothing. |
| Deletion.FailFastDeletionVisitor.VisitFile | src/main/java/com/github/fge/filesystem/deletion/FailFastDeletionVisitor.java:48-55 | Deletes the file and throws the delete's error. |
| Deletion.FailFastDeletionVisitor.VisitFileFailed | src/main/java/com/github/fge/filesystem/deletion/FailFastDeletionVisitor.java:57-63 | Rethrows the walker's exception. |
| Deletion.FailFastDeletionVisitor.PostVisitDirectory | src/main/java/com/github/fge/filesystem/deletion/FailFastDeletionVisitor.java:65-72 | Deletes the directory whatever the listing exception, and throws the delete's error. |
| Deletion.KeepGoingDeletionVisitor.constructor | src/main/java/com/github/fge/filesystem/deletion/KeepGoingDeletionVisitor.java:37-42 | Keeps the shared exception that every hook appends to. |
| Deletion.KeepGoingDeletionVisitor.PreVisitDirectory | src/main/java/com/github/fge/filesystem/deletion/KeepGoingDeletionVisitor.java:44-50 | Continues, changing nothing. |
| Deletion.KeepGoingDeletionVisitor.VisitFile | src/main/java/com/github/fge/filesystem/deletion/KeepGoingDeletionVisitor.java:52-63 | Deletes the file; a failure is appended, not thrown. |
| Deletion.KeepGoingDeletionVisitor.VisitFileFailed | src/main/java/com/github/fge/filesystem/deletion/KeepGoingDeletionVisitor.java:65-72 | Appends the walker's exception and continues. |
| Deletion.KeepGoingDeletionVisitor.PostVisitDirectory | src/main/java/com/github/fge/filesystem/deletion/KeepGoingDeletionVisitor.java:74-90 | With a listing exception, appends it and keeps the directory. Otherwise deletes the directory and appends a failure. |
| Policies.CopyPoliciesAgree | src/main/java/com/github/fge/filesystem/MoreFiles.java:142-158 | On any walk, fail-fast copying succeeds iff keep-going copying neither throws nor collects. Then both end in the same state. Otherwise fail-fast throws keep-going's first collected error, or the same UnsupportedOperation. |
| Policies.DeletionPoliciesAgree | src/main/java/com/github/fge/filesystem/MoreFiles.java:196-209 | When no listing breaks part-way, fail-fast deletion succeeds iff keep-going collects nothing, in the same state. Otherwise fail-fast throws keep-going's first collected error. |
| Policies.KeepGoingDeletionCompletes | src/main/java/com/github/fge/filesystem/deletion/KeepGoingDeletionVisitor.java:44-90 | A keep-going deletion walk never throws and never loses a collected exception. |
| Policies.KeepGoingCopyThrowsOnlyUnsupported | src/main/java/com/github/fge/filesystem/copy/KeepGoingCopyVisitor.java:77-78 | A keep-going copy walk throws nothing but UnsupportedOperation, and only when it visits a non-regular file. It never loses a collected exception. |
| Mirror.CopyTree | src/test/java/com/github/fge/filesystem/copy/KeepGoingCopyVisitorTest.java:71-96 | Keep-going copying of regular files and directories onto a free destination: every path the walk reaches gets a copy under the destination, even across providers. The only collected errors are the walk's own listing failures, and nothing is thrown. |
| Mirror.FailFastCopyOfCleanTree | src/test/java/com/github/fge/filesystem/MoreFilesRecursiveCopyTest.java:122-135 | Fail-fast copying of a readable tree of regular files mirrors every path under the destination and throws nothing. |
| Mirror.UnreadableSubdirectoryIsCollected | src/test/java/com/github/fge/filesystem/copy/KeepGoingCopyVisitorTest.java:98-112 | One unreadable subdirectory leaves exactly one AccessDenied error in the accumulator, and the walk does not throw. |
| Removal.RemoveTree | src/main/java/com/github/fge/filesystem/deletion/FailFastDeletionVisitor.java:48-72 | Fail-fast deletion of a readable tree without faults removes exactly the tree's paths and throws nothing. A single file is removed by visitFile alone. |
| Removal.KeepGoingRemovesTree | src/test/java/com/github/fge/filesystem/deletion/KeepGoingDeletionVisitorTest.java:81-102 | Keep-going deletion of a tree with no failures removes it completely and collects nothing. |
| Removal.NonWritableDirectoryAborts | src/test/java/com/github/fge/filesystem/deletion/FailFastDeletionVisitorTest.java:64-76 | A file that cannot be deleted stops the fail-fast deletion with AccessDenied, with nothing deleted. |
| Removal.NonWritableDirectoryCollects | src/test/java/com/github/fge/filesystem/deletion/KeepGoingDeletionVisitorTest.java:67-79 | Keep-going deletion of the same directory collects AccessDenied for the file, then DirectoryNotEmpty for its directory, and throws nothing. |
| MoreFiles.Escaped | src/main/java/com/github/fge/filesystem/MoreFiles.java:142-145 | What the walk throws escapes unchanged: an I/O error as that IOException, the unsupported entry as UnsupportedOperationException. |
| MoreFiles.KeepGoingEnding | src/main/java/com/github/fge/filesystem/MoreFiles.java:152-158 | Keep-going ends without a throw iff the walk threw nothing and nothing was collected. When only errors were collected, it throws the aggregate of all of them. |
| MoreFiles.CopyRecursive | src/main/java/com/github/fge/filesystem/MoreFiles.java:112-159 | Throws and leaves the entries exactly as CopyRecursiveSpec says, and no permission changes. The checks come in source order: a null option, more than one option, a missing source, an existing destination without REPLACE_EXISTING, then deleteIfExists, then the walk with the chosen visitor. |
| MoreFiles.CopyOptionsChecked | src/main/java/com/github/fge/filesystem/MoreFiles.java:118-130 | A null option is refused iff there is one, touching nothing. Without one, more than one option is refused with UnsupportedOperationException, touching nothing. |
| MoreFiles.MissingSourceChangesNothing | src/main/java/com/github/fge/filesystem/MoreFiles.java:132-133 | A missing source gives NoSuchFile on the source before the destination is touched. |
| MoreFiles.ExistingDestinationKept | src/main/java/com/github/fge/filesystem/MoreFiles.java:136-140 | An existing destination without REPLACE_EXISTING gives FileAlreadyExists with nothing changed. With REPLACE_EXISTING, a non-empty directory gives DirectoryNotEmpty with nothing changed. |
| MoreFiles.ReplacedDestinationRemoved | src/main/java/com/github/fge/filesystem/MoreFiles.java:140 | With replace, a file or empty directory at the destination is removed before the walk. |
| MoreFiles.ReadyAfterRemoval | src/main/java/com/github/fge/filesystem/MoreFiles.java:136-140 | When the destination is free or replaceable, removing it leaves the source tree intact and the destination ready to receive the copy. |
| MoreFiles.KeepGoingCopyMirrors | src/main/java/com/github/fge/filesystem/MoreFiles.java:152-158 | KEEP_GOING copy of regular files: the aggregate is thrown iff the walk hit listing errors, and it holds exactly those. Every reached path is copied. |
| MoreFiles.FailFastCopyMirrors | src/main/java/com/github/fge/filesystem/MoreFiles.java:142-145 | FAIL_FAST copy throws the first listing error of the walk, if any. Without one, the whole tree is copied. |
| MoreFiles.WrittenWithinProvider | src/main/java/com/github/fge/filesystem/MoreFiles.java:142-158 | Within one file system or one provider, the copy as written is the one CopyRecursiveSpec describes. |
| MoreFiles.WrittenCrossProviderCopyThrows | src/main/java/com/github/fge/filesystem/copy/FailFastCopyVisitor.java:53-57 | As written, copying a directory or a regular file to another provider throws a NullPointerException in either mode. It happens after the destination is removed and before anything is copied. The intended copy never throws one. |
| MoreFiles.DeleteRecursive | src/main/java/com/github/fge/filesystem/MoreFiles.java:187-213 | Throws and leaves the entries exactly as DeleteRecursiveSpec says, and no permission changes. KEEP_GOING throws the aggregate only when something was collected. |
| MoreFiles.DeleteRecursiveRemovesTree | src/main/java/com/github/fge/filesystem/MoreFiles.java:196-209 | In both modes, a readable tree without faults is removed exactly, without a throw. |
| MoreFiles.DeleteRecursiveModesAgree | src/main/java/com/github/fge/filesystem/MoreFiles.java:196-209 | KEEP_GOING throws nothing but a non-empty aggregate. When no listing breaks part-way: FAIL_FAST succeeds iff KEEP_GOING does, with the same entries, and otherwise throws KEEP_GOING's first suppressed error. |
| MoreFiles.OpenZip | src/main/java/com/github/fge/filesystem/MoreFiles.java:651-722 | Throws, or returns the `create` flag, exactly as OpenZipSpec says. Its loop checks each option in turn and records CREATE_NEW and any create option. |
| MoreFiles.ZipOptionsFirstFailure | src/main/java/com/github/fge/filesystem/MoreFiles.java:661-694 | The option loop fails iff some option fails its check, and then with the failure of the first such option. |
| MoreFiles.OpenZipSucceeds | src/main/java/com/github/fge/filesystem/MoreFiles.java:696-721 | openZip succeeds iff every option is non-null and valid, no option trips the symbolic-link or directory check, CREATE_NEW does not meet an existing file, and the file exists or a create option is given. It then returns create = !exists. |
| MoreFiles.UnsupportedOptionRefused | src/main/java/com/github/fge/filesystem/MoreFiles.java:663-666 | On a path that is neither a directory nor a link, openZip fails with "option is not supported" iff some option is outside CREATE, CREATE_NEW, NOFOLLOW_LINKS. |
| MoreFiles.DirectoryCheckedOnlyInLoop | src/main/java/com/github/fge/filesystem/MoreFiles.java:689-693 | A directory is refused only when at least one option is given. With no options it is opened with create = false. |
| MoreFiles.ZipDecisions | src/test/java/com/github/fge/filesystem/MoreFilesZipTest.java:44-115 | These are the zip test cases: CREATE_NEW on an existing file, NOFOLLOW_LINKS on a link, a missing file without a create option, and CREATE on a missing file. |
| MoreFiles.MissingAncestors | src/main/java/com/github/fge/filesystem/MoreFiles.java:617-622 | The collected paths are missing ancestors of the target, from the target upward, one level at a time. |
| MoreFiles.DoCreateDirectories | src/main/java/com/github/fge/filesystem/MoreFiles.java:611-629 | Entries, permissions and error are exactly as DoCreateDirectoriesSpec says. Both loops are proved by invariants against it. |
| MoreFiles.CreatesExactlyMissing | src/test/java/com/github/fge/filesystem/MoreFilesTest.java:67-89 | createDirectories adds exactly the missing ancestors, as directories. |
| MoreFiles.CreatedDirectoriesGetPermissions | src/test/java/com/github/fge/filesystem/MoreFilesTest.java:91-101 | Without faults: the created paths are exactly the missing ancestors and each gets the permissions. The existing entries and their permissions are untouched. |
| MoreFiles.CreateDirectoriesWithMode | src/main/java/com/github/fge/filesystem/MoreFiles.java:502-513 | An invalid int mode throws InvalidIntMode and changes nothing. Otherwise the directories are created with the decoded permissions, and dir is returned or the I/O error thrown. |

## Left out

- **JDK behaviour.**
  - The file-system operations (`Files.walkFileTree`, `copy`, `delete`, `createDirectories`, `setPosixFilePermissions`, `toRealPath`) follow the in-memory model above, not a real provider.
  - `toRealPath` and `toAbsolutePath` are the identity.
  - Symbolic links are never followed, although `Files.exists` and `Files.isDirectory` follow them in Java.
- **Walk order.** Sibling order is not specified by the JDK. The walk takes the order of the tree snapshot it is given, and the tree is not re-read while it is being changed.
- **Null arguments.** `Objects.requireNonNull` on paths and on the mode is not modelled; paths and modes cannot be null. Null options are modelled (an `Option` per option).
- **Unreachable branches.** The `IllegalStateException` branches of `copyRecursive` and `deleteRecursive` cannot be reached: the mode has two values.
- **`openZip`'s last step.** The zip file system itself (`FileSystems.newFileSystem`) is not built. `MoreFiles.OpenZip` returns the `create` value it would pass.
- **`createDirectories(dir, String)`.** It parses the mode with the JDK's `PosixFilePermissions.fromString`, which is not modelled.
- **Thin wrappers.** `setMode`, `createFile`, `createDirectory`, `touch`, `setTimes`, `doCreateFile` and `doCreateDirectory` each make one JDK call. `changeMode` calls methods that are not in this revision's code.
- **Content streams.**
  - The stream wrappers (`ContentInputStream`, `ContentOutputStream`, `ContentBufferedReader`, `ContentBufferedWriter`) are reduced to one event, a write that fails: it sets the flag and is rethrown.
  - `BinaryContentModifier` and `TextContentModifier` only open JDK streams.
  - `volatile` and `synchronized` are modelled sequentially.
- **Read-only proxy.**
  - Arguments that the proxy only passes on (paths, URIs, attribute maps, executors) are strings or are left out.
  - Paths from `ReadOnlyFileSystem.getPath` belong to the wrapped file system, so operations on them do not go through the read-only provider. The model claims interception only through the provider object.
- **Other classes.** `ImageTypeDetector` (ImageIO), `ZipFileTypeDetector`, `MoreFileSystems`, `PermissionsSet`, the exception classes and the unused `DeleteRecursiveOption` enum are not part of this model.
- **Exception messages.** Messages are kept where the code sets one (mode instructions, zip refusals, accessor refusals). Otherwise an exception is its kind and its file.
- **The `CREATE` option.** The read-only provider test (`readonly/ReadOnlyFileSystemProviderTest.java:42-43`) expects a channel opened with `CREATE` alone to be refused. The code's write-option set leaves `CREATE` out, so the model follows the code and forwards it (`ReadOnlyProvider.CreateAloneForwarded`).
- **The keep-going deletion test.** `KeepGoingDeletionVisitorTest.java:67-79` expects exactly one suppressed exception. The model also collects the `DirectoryNotEmpty` failure of every directory that still holds the undeletable file, as a POSIX file system reports it (`Removal.NonWritableDirectoryCollects` shows the smallest case). The count in the test depends on the in-memory file system it runs on.
- **`PosixModes.IntModeToPosix`.** Java's `>>=` is an arithmetic shift. It is modelled as `/ 2` because the loop is reached only for values 0..511.
- Copy.FailFastCopyVisitor.Map, Copy.KeepGoingCopyVisitor.Map: map entries with the intended resolution (`MorePaths.ResolveIntended`). The written `MorePaths.resolve` gives null across providers. Within one file system or provider the two agree (`Copy.WrittenResolveWithinProvider`).
- Copy.FailFastCopyVisitor.PreVisitDirectory, Copy.FailFastCopyVisitor.VisitFile, Copy.KeepGoingCopyVisitor.PreVisitDirectory, Copy.KeepGoingCopyVisitor.VisitFile: through Map, they create or copy at the intended destination across providers. The written code throws a NullPointerException there.
- MoreFiles.CopyRecursive: CopyRecursiveSpec describes the intended copy. Across providers the written code throws a NullPointerException instead, as `MoreFiles.WrittenCopyRecursiveSpec` and `MoreFiles.WrittenCrossProviderCopyThrows` state. Within a provider the two agree (`MoreFiles.WrittenWithinProvider`).
- Mirror.CopyTree: its cross-provider copies hold for the intended resolution only; as written, such a copy throws a NullPointerException at its first entry.
- **The deletion visitors' provider.** Both visitors capture the victim's provider and delete through it. Every file system here shares one storage, so the model deletes through the storage and keeps no provider field.
- **`MorePaths.Resolve`.** The root directories of path1 are a parameter. The written code only reads them in a loop with an empty body.

## Findings

| source | as written | input that shows it | evidently intended | confidence | as-written member | corrected member |
|---|---|---|---|---|---|---|
| src/main/java/com/github/fge/filesystem/MorePaths.java:44-50 | The loop over path1's roots compares each root with path2's root and does nothing with the result, so every absolute cross-provider path with a root is refused as "incompatible". | path1 = /foo on one provider (root "/"), path2 = /bar on another | A matching root resolves to /bar on path1's file system (MorePathsTest.java:140-158) | not executed | MorePaths.MatchingRootRefused | MorePaths.IntendedAbsolute |
| src/main/java/com/github/fge/filesystem/MorePaths.java:53-56 | `resolvePath2NotAbsolute` is a stub that returns null, so a relative path across providers resolves to null. | path1 = /foo/bar, path2 = toto/le/heros on another provider, or path2 empty | path1 extended by path2's names, and path1 itself for an empty path2 (MorePathsTest.java:183-217) | not executed | MorePaths.RelativeAcrossProvidersIsNull | MorePaths.IntendedRelative |
| src/main/java/com/github/fge/filesystem/copy/FailFastCopyVisitor.java:53-57 | Because of the stub, copying a tree to another provider gets null from `MorePaths.resolve(dst, src.relativize(dir))` at the first directory (or file) and hands it to `createDirectories` (or `Files.copy`). The NullPointerException escapes both visitors, since the keep-going one catches only IOException. | any directory or regular file copied to a destination on a different provider | The relative path is resolved under dst, so the tree is copied (KeepGoingCopyVisitorTest.java:71-96) | not executed | MoreFiles.WrittenCrossProviderCopyThrows | Copy.DestinationIsIntendedResolve |
