/** The signed description of a file, shared by file transfer and encrypted storage. */
module Manifests {
  import opened Base
  import Postcard

  /** The name is its UTF-8 bytes. `authentic` is the outcome of checking the signature against the named signer. */
  datatype FileManifest = FileManifest(version: U16, name: Bytes, totalSize: nat, chunkSize: U32, chunks: seq<Digest>,
      authentic: bool)

  const DIGEST_SIZE: nat := 32

  /** A 32-byte key and a 64-byte signature. */
  const SIGNER_SIZE: nat := 96

  /** Size of a serialized manifest, field by field. */
  function ManifestSize(m: FileManifest): nat {
    |Postcard.Varint(m.version)| + |Postcard.Block(m.name)| + |Postcard.Varint(m.totalSize)| +
    |Postcard.Varint(m.chunkSize)| + |Postcard.Varint(|m.chunks|)| + DIGEST_SIZE * |m.chunks| + SIGNER_SIZE
  }
}
