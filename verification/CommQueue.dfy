/** The circular queue between the receive thread and the data thread. */
module CommQueue {
  import opened Options
  import opened Words

  class CommQueue<T(0)> {
    const size: nat
    var data: array<T>
    var read: nat
    var write: nat
    var count: nat

    ghost predicate Valid()
      reads this
    {
      && 0 < size < TWO_32
      && data.Length == size
      && read < size && write < size
      && count == if read <= write then write - read else write + size - read
    }

    /** The queued elements, oldest first. */
    ghost function Contents(): (s: seq<T>)
      requires Valid()
      reads this, data
      ensures |s| == count
    {
      if read <= write then data[read..write] else data[read..] + data[..write]
    }

    ghost function Capacity(): int {
      size - 1
    }

    constructor (n: nat)
      requires 0 < n < TWO_32
      ensures Valid() && fresh(data)
      ensures size == n && Contents() == []
    {
      size := n;
      data := new T[n];
      read, write, count := 0, 0, 0;
    }

    /** `push` without waiting: refused exactly when `size - 1` elements are queued. */
    method Push(x: T) returns (accepted: bool)
      requires Valid()
      modifies this`write, this`count, data
      ensures Valid() && data == old(data)
      ensures accepted <==> |old(Contents())| < Capacity()
      ensures Contents() == if accepted then old(Contents()) + [x] else old(Contents())
    {
      NextSlot(write, size);
      var next := (write + 1) % size;
      if next == read {
        accepted := false;
      } else {
        data[write] := x;
        write := next;
        count := count + 1;
        accepted := true;
      }
    }

    /** `pop` after any wait: the oldest element, or none exactly when the queue is empty. */
    method Pop() returns (x: Option<T>)
      requires Valid()
      modifies this`read, this`count
      ensures Valid()
      ensures x.None? <==> old(Contents()) == []
      ensures x.Some? ==> old(Contents()) == [x.value] + Contents()
      ensures x.None? ==> Contents() == []
    {
      if read == write {
        x := None;
      } else {
        NextSlot(read, size);
        var next := (read + 1) % size;
        x := Some(data[read]);
        read := next;
        count := count - 1;
      }
    }

    method Ready() returns (r: bool)
      requires Valid()
      ensures r <==> Contents() != []
    {
      r := read != write;
    }

    method EntryCnt() returns (n: nat)
      requires Valid()
      ensures n == |Contents()|
    {
      n := count;
    }
  }
}
