/** Writing and reading a file: the kernel may move less than it is asked to, be interrupted, or fail. */
module FileWrite {
  import opened Bytes

  /** One return of the `write` or the `read` system call. */
  datatype Count = Interrupted | Failed | Moved(bytes: nat)

  /** How much of `size` bytes the loop moves. */
  function Reached(size: nat, counts: seq<Count>): (n: nat)
    ensures n <= size
  {
    if size == 0 || counts == [] then 0
    else match counts[0]
      case Interrupted => Reached(size, counts[1..])
      case Failed => 0
      case Moved(n) => if n == 0 then 0 else if n >= size then size else n + Reached(size - n, counts[1..])
  }

  /** The loop that writes a file, or reads one: what arrives is exactly the prefix it got to, and it
      succeeds when that is everything. */
  method MoveAll(data: seq<byte>, counts: seq<Count>) returns (ok: bool, moved: seq<byte>)
    ensures moved == data[..Reached(|data|, counts)] && ok == (Reached(|data|, counts) == |data|)
    ensures ok ==> moved == data
  {
    moved := [];
    var done, call := 0, 0;
    assert counts[0..] == counts;
    while done < |data|
      invariant 0 <= done <= |data| && 0 <= call <= |counts| && moved == data[..done]
      invariant Reached(|data|, counts) == done + Reached(|data| - done, counts[call..])
      decreases |counts| - call
    {
      if call == |counts| {
        return false, moved;
      }
      var count := counts[call];
      assert counts[call..][1..] == counts[call + 1..];
      call := call + 1;
      if count.Failed? || count == Moved(0) {
        return false, moved;
      }
      if count.Moved? {
        var n := if count.bytes <= |data| - done then count.bytes else |data| - done;
        moved := moved + data[done..done + n];
        done := done + n;
      }
    }
    ok := true;
  }

  /** What the calls moved between them, had there been enough to move. */
  function Sum(counts: seq<Count>): nat {
    if counts == [] then 0
    else (match counts[0] case Moved(n) => n case _ => 0) + Sum(counts[1..])
  }

  predicate Ends(c: Count) { c == Failed || c == Moved(0) }

  /** Up to the first call that fails or moves nothing, everything counts; after it, nothing does. */
  lemma {:induction false} ReachedMeans(size: nat, counts: seq<Count>, calls: nat)
    requires calls <= |counts| && (forall i :: 0 <= i < calls ==> !Ends(counts[i]))
    requires calls == |counts| || Ends(counts[calls])
    ensures Reached(size, counts) == if Sum(counts[..calls]) < size then Sum(counts[..calls]) else size
  {
    if size > 0 && calls > 0 {
      assert counts[..calls][1..] == counts[1..][..calls - 1];
      match counts[0]
      case Interrupted => ReachedMeans(size, counts[1..], calls - 1);
      case Failed =>
      case Moved(n) => if n < size { ReachedMeans(size - n, counts[1..], calls - 1); }
    }
  }
}
