/**
 * A dump that the writer produced, cut into chunks of any size and read back
 * (lj_bcwrite.c, lj_bcread.c).
 */
module Dumps {
  import opened DumpFormat
  import opened DumpSame
  import opened DumpWrite
  import opened DumpRead

  /** Any way to cut bytes into chunks that are not empty. */
  method Cut(s: seq<int>) returns (chunks: seq<seq<int>>)
    ensures Flat(chunks) == s && forall i :: 0 <= i < |chunks| ==> chunks[i] != []
  {
    chunks := [];
    var rest: nat := |s|;
    while rest > 0
      invariant rest <= |s| && Flat(chunks) == s[rest..]
      invariant forall i :: 0 <= i < |chunks| ==> chunks[i] != []
    {
      var size: nat :| 0 < size <= rest;
      var chunk := s[rest - size..rest];
      assert chunk + s[rest..] == s[rest - size..];
      assert ([chunk] + chunks)[1..] == chunks;
      chunks := [chunk] + chunks;
      rest := rest - size;
    }
  }

  /**
   * If the callback of the writer accepts every piece, then whatever chunks they are read in, the tree
   * comes back, up to the flags that a dump does not keep and to what was stripped.
   */
  method WriteThenRead(pt: Proto, name: seq<int>, strip: bool, answers: seq<int>, chunkarg: seq<int>)
                       returns (status: int, ok: bool, r: ReadProto, back: seq<int>)
    requires ProtoOk(pt, strip) && IsBytes(name) && |name| < MAX_MEM
    ensures (forall i :: 0 <= i < |Pieces(pt, name, strip)| ==> Answer(answers, i) == 0) <==> status == 0
    ensures status == 0 ==> ok && SameTree(pt, r, strip) && r == Back(pt, strip)
    ensures status == 0 ==> back == if strip then chunkarg else name
  {
    ok, r, back := false, ReadProto(0, 0, 0, [], [], [], [], 0, 0, []), [];
    var writer := new Writer(strip, answers);
    writer.Write(pt, name);
    status := writer.status;
    if status == 0 {
      var dump := Concat(writer.given);
      assert |dump| > 0;
      var chunks := Cut(dump[1..]);
      var reader := new Reader([], chunks, chunkarg);
      assert [] + Flat(chunks) == Flat(chunks);
      ok, r := reader.Read(pt, name, strip);
      back := reader.chunkname;
    }
  }
}
