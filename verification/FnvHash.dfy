/** The 64-bit FNV-1a step shared by record checksums and canonical digests
    (src/dispatch/file_store_support.cpp:40-47). */
module FnvHash {
  import opened MachineWords

  const OFFSET_BASIS: bv64 := 1469598103934665603
  const PRIME: bv64 := 1099511628211

  function FoldByte(digest: bv64, byte: u8): bv64 {
    (digest ^ (byte as bv64)) * PRIME
  }

  function FoldAll(digest: bv64, bytes: seq<u8>): bv64
    decreases |bytes|
  {
    if bytes == [] then digest else FoldAll(FoldByte(digest, bytes[0]), bytes[1..])
  }

  function Checksum(bytes: seq<u8>): u64 {
    FoldAll(OFFSET_BASIS, bytes) as int
  }

  method ComputeChecksum(bytes: seq<u8>) returns (sum: u64)
    ensures sum == Checksum(bytes)
  {
    hide FoldByte;
    var digest := OFFSET_BASIS;
    for i := 0 to |bytes|
      invariant FoldAll(digest, bytes[i..]) == FoldAll(OFFSET_BASIS, bytes)
    {
      assert bytes[i..][1..] == bytes[i + 1..];
      digest := FoldByte(digest, bytes[i]);
    }
    sum := digest as int;
  }
}
