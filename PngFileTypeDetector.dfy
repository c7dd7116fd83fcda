/** PNG content-type detection (PngFileTypeDetector.probeContentType): one read
    of up to eight bytes into a zeroed buffer, then a comparison with the PNG
    signature of section 3.1 of RFC 2083.

    Opening the file and the read itself are outside the model: the bytes that
    single read delivered are a parameter (none at end of stream, which the
    stream reports as -1).
 */
module PngFileTypeDetector {
  import opened Wrappers

  /** The PNG signature: 0x89 'P' 'N' 'G' CR LF SUB LF. */
  const PNG_HEADER: seq<bv8> := [0x89, 0x50, 0x4E, 0x47, 0x0D, 0x0A, 0x1A, 0x0A]

  const PNG_HEADER_SIZE: nat := 8

  const IMAGE_PNG: string := "image/png"

  function Zeros(n: nat): (z: seq<bv8>)
    ensures |z| == n && forall k :: 0 <= k < n ==> z[k] == 0
  {
    if n == 0 then [] else Zeros(n - 1) + [0]
  }

  /** What InputStream.read(buf) returns: -1 at end of stream, otherwise the
      number of bytes it placed at the start of the buffer. */
  function ReadCount(delivered: seq<bv8>): int {
    if |delivered| == 0 then -1 else |delivered|
  }

  /** probeContentType: a read that did not fill the buffer means "unknown"
      (null); otherwise "image/png" if the buffer equals the signature. */
  function ProbeContentType(delivered: seq<bv8>): (r: Option<string>)
    requires |delivered| <= PNG_HEADER_SIZE
    ensures r.Some? ==> r.value == IMAGE_PNG && |delivered| == PNG_HEADER_SIZE
  {
    var buf := delivered + Zeros(PNG_HEADER_SIZE - |delivered|);
    if ReadCount(delivered) != PNG_HEADER_SIZE then None
    else if buf == PNG_HEADER then Some(IMAGE_PNG)
    else None
  }

  /** The answer is "image/png" exactly when the read delivered the whole
      signature, and "unknown" in every other case. */
  lemma ProbeIffSignature(delivered: seq<bv8>)
    requires |delivered| <= PNG_HEADER_SIZE
    ensures ProbeContentType(delivered) == Some(IMAGE_PNG) <==> delivered == PNG_HEADER
    ensures ProbeContentType(delivered) != Some(IMAGE_PNG) ==> ProbeContentType(delivered) == None
  {
    if |delivered| == PNG_HEADER_SIZE {
      assert delivered + Zeros(0) == delivered;
    }
  }

  /** A read that stops short is never recognised, even when what it delivered
      is the start of the signature: the source makes a single read. */
  lemma ShortReadUnknown(k: nat)
    requires k < PNG_HEADER_SIZE
    ensures ProbeContentType(PNG_HEADER[..k]) == None
  {
  }

  /** The bytes a read that fills the buffer whenever the file allows it
      delivers: the first min(8, |file|). */
  function FullRead(file: seq<bv8>): (delivered: seq<bv8>)
    ensures |delivered| <= PNG_HEADER_SIZE
    ensures delivered <= file
  {
    if |file| < PNG_HEADER_SIZE then file else file[..PNG_HEADER_SIZE]
  }

  /** With such a read, a file is reported as PNG exactly when it is at least
      eight bytes long and starts with the signature. */
  lemma FileIsPngIffSignaturePrefix(file: seq<bv8>)
    ensures ProbeContentType(FullRead(file)) == Some(IMAGE_PNG)
      <==> |file| >= PNG_HEADER_SIZE && file[..PNG_HEADER_SIZE] == PNG_HEADER
  {
    ProbeIffSignature(FullRead(file));
  }

  /** Only the first eight bytes matter: whatever follows them is never read. */
  lemma OnlyTheSignatureIsRead(file: seq<bv8>, rest: seq<bv8>)
    requires |file| >= PNG_HEADER_SIZE
    ensures ProbeContentType(FullRead(file + rest)) == ProbeContentType(FullRead(file))
  {
    assert (file + rest)[..PNG_HEADER_SIZE] == file[..PNG_HEADER_SIZE];
  }

  /** The signature as RFC 2083 writes it, in decimal: 137 80 78 71 13 10 26 10. */
  lemma SignatureInDecimal()
    ensures |PNG_HEADER| == PNG_HEADER_SIZE
    ensures forall k :: 0 <= k < PNG_HEADER_SIZE ==>
      PNG_HEADER[k] as int == [137, 80, 78, 71, 13, 10, 26, 10][k]
  {
  }
}
