/** The reads of a pipe as the `while True: chunk = read(n); if not chunk:
    break` loops see them: every read up to the first empty one, which marks
    the end of the stream. */
module Streams {

  /** The reads the loop consumes: those before the first empty read (a list
      that runs out ends the stream too). */
  function UntilEof<T>(received: seq<seq<T>>): (r: seq<seq<T>>)
    ensures |r| <= |received| && r == received[..|r|]
    ensures forall k :: 0 <= k < |r| ==> r[k] != []
    ensures |r| < |received| ==> received[|r|] == []
    decreases |received|
  {
    if received == [] || received[0] == [] then [] else [received[0]] + UntilEof(received[1..])
  }

  /** A loop that stopped at position `i`, having seen only non-empty reads
      before it, consumed exactly the reads before `i`. */
  lemma {:induction false} UntilEofAt<T>(received: seq<seq<T>>, i: nat)
    requires i <= |received| && (i == |received| || received[i] == [])
    requires forall k :: 0 <= k < i ==> received[k] != []
    ensures UntilEof(received) == received[..i]
    decreases i
  {
    if i > 0 {
      assert received[0] != [];
      UntilEofAt(received[1..], i - 1);
      assert received[..i] == [received[0]] + received[1..][..i - 1];
    }
  }

  /** The pieces laid end to end. */
  function Concat<T>(parts: seq<seq<T>>): seq<T>
    decreases |parts|
  {
    if parts == [] then [] else parts[0] + Concat(parts[1..])
  }
}
