/** Bytes as numbers. */
module OctetSeqs {

  predicate IsOctets(b: seq<int>) {
    forall i :: 0 <= i < |b| ==> 0 <= b[i] < 256
  }
}
