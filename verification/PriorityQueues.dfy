/** The array-backed minimum queue with deletion by value, and the timeout queue on top of it. */
module PriorityQueues {
  import HeapSpec
  type Entry<V> = HeapSpec.Entry<V>

  const MINIMUM_SIZE := 16

  class PriorityQueue<V(==, 0)> {
    var minHeap: array<Entry<V>>
    var size: nat
    // The hash map from a value to its offset in the heap.
    var offsets: map<V, nat>

    /** The first `n` slots and the offset map are inverse to each other. */
    ghost predicate Indexed(n: nat)
      reads this, minHeap
    {
      && n <= minHeap.Length
      && (forall i :: 0 <= i < n ==> minHeap[i].value in offsets && offsets[minHeap[i].value] == i)
      && (forall v :: v in offsets ==> offsets[v] < n && minHeap[offsets[v]].value == v)
    }

    ghost predicate Valid()
      reads this, minHeap
    {
      Indexed(size) && MINIMUM_SIZE <= minHeap.Length
    }

    ghost function Contents(): (h: seq<Entry<V>>)
      requires Valid()
      reads this, minHeap
    {
      minHeap[..size]
    }

    constructor ()
      ensures Valid() && fresh(minHeap) && Contents() == []
    {
      minHeap := new Entry<V>[MINIMUM_SIZE];
      size := 0;
      offsets := map[];
    }

    method IsEmpty() returns (b: bool)
      requires Valid()
      ensures b == (Contents() == [])
    {
      b := size == 0;
    }

    method Minimum() returns (e: Entry<V>)
      requires Valid() && Contents() != []
      ensures e == Contents()[0]
    {
      e := minHeap[0];
    }

    method Swap(i: nat, j: nat, ghost n: nat)
      requires Indexed(n) && i < j < n
      modifies minHeap, `offsets
      ensures Indexed(n) && minHeap[..n] == HeapSpec.Swap(old(minHeap[..n]), i, j)
    {
      var temp := minHeap[i];
      minHeap[i] := minHeap[j];
      minHeap[j] := temp;
      offsets := offsets[minHeap[i].value := i];
      offsets := offsets[minHeap[j].value := j];
    }

    method BubbleUp(start: nat, ghost n: nat)
      requires Indexed(n) && start < n
      modifies minHeap, `offsets
      ensures Indexed(n) && minHeap[..n] == HeapSpec.BubbleUp(old(minHeap[..n]), start)
    {
      var offset: nat := start;
      while offset != 0
        invariant Indexed(n) && offset < n
        invariant HeapSpec.BubbleUp(minHeap[..n], offset) == HeapSpec.BubbleUp(old(minHeap[..n]), start)
      {
        var parent := (offset - 1) / 2;
        if minHeap[parent].priority > minHeap[offset].priority {
          Swap(parent, offset, n);
        }
        offset := parent;
      }
    }

    /** The offset of the smallest among an entry and its children. */
    method SmallestOf(offset: nat) returns (smallest: nat)
      requires size <= minHeap.Length && offset < size
      ensures smallest == HeapSpec.SmallestOf(minHeap[..size], offset)
    {
      var leftChild := 2 * offset + 1;
      if leftChild >= size { return offset; }
      smallest := offset;
      if minHeap[leftChild].priority < minHeap[offset].priority {
        smallest := leftChild;
      }
      var rightChild := leftChild + 1;
      if rightChild < size {
        if minHeap[rightChild].priority < minHeap[smallest].priority {
          smallest := rightChild;
        }
      }
    }

    method BubbleDown(start: nat)
      requires Indexed(size) && start < size
      modifies minHeap, `offsets
      ensures Indexed(size) && minHeap[..size] == HeapSpec.BubbleDown(old(minHeap[..size]), start)
    {
      var offset := start;
      while true
        invariant Indexed(size) && offset < size
        invariant HeapSpec.BubbleDown(minHeap[..size], offset) == HeapSpec.BubbleDown(old(minHeap[..size]), start)
        decreases size - offset
      {
        var smallest := SmallestOf(offset);
        if offset == smallest { return; }
        Swap(offset, smallest, size);
        offset := smallest;
      }
    }

    method Resize(newSize: nat)
      requires Indexed(size) && size < newSize
      modifies `minHeap
      ensures Indexed(size) && fresh(minHeap) && minHeap.Length == newSize
      ensures minHeap[..size] == old(minHeap[..size])
    {
      var backing := new Entry<V>[newSize];
      forall i | 0 <= i < size {
        backing[i] := minHeap[i];
      }
      minHeap := backing;
    }

    /** Fills the slot after the last one. */
    method Set(e: Entry<V>)
      requires Indexed(size) && size < minHeap.Length && e.value !in offsets
      modifies minHeap, `offsets
      ensures Indexed(size + 1) && minHeap[..size + 1] == old(minHeap[..size]) + [e]
    {
      minHeap[size] := e;
      offsets := offsets[e.value := size];
    }

    method Insert(priority: int, value: V)
      requires Valid() && value !in offsets
      modifies this, minHeap
      ensures Valid() && (minHeap == old(minHeap) || fresh(minHeap))
      ensures Contents() == HeapSpec.Insert(old(Contents()), HeapSpec.Entry(priority, value))
    {
      if size == minHeap.Length {
        Resize(2 * minHeap.Length);
      }
      Set(HeapSpec.Entry(priority, value));
      BubbleUp(size, size + 1);
      size := size + 1;
    }

    /** Drops the entry at `offset` and moves the one after the last slot into its place. */
    method Replace(offset: nat)
      requires Indexed(size + 1) && offset < size
      modifies minHeap, `offsets
      ensures Indexed(size)
      ensures minHeap[..size] == old(minHeap[..size])[offset := old(minHeap[size])]
    {
      offsets := offsets - {minHeap[offset].value};
      var last := minHeap[size];
      offsets := offsets[last.value := offset];
      minHeap[offset] := last;
    }

    /** Removal before the backing store is given a chance to shrink. */
    method TakeOut(offset: nat)
      requires Indexed(size) && offset < size
      modifies minHeap, `offsets, `size
      ensures Indexed(size) && minHeap == old(minHeap) && size == old(size) - 1
      ensures minHeap[..size] == HeapSpec.RemoveAt(old(minHeap[..size]), offset)
    {
      ghost var before := minHeap[..size];
      size := size - 1;
      assert before[..size] == minHeap[..size];
      if offset == size {
        offsets := offsets - {minHeap[offset].value};
      } else {
        Replace(offset);
        BubbleDown(offset);
      }
    }

    method RemoveAt(offset: nat)
      requires Valid() && offset < size
      modifies this, minHeap
      ensures Valid() && (minHeap == old(minHeap) || fresh(minHeap))
      ensures Contents() == HeapSpec.RemoveAt(old(Contents()), offset)
    {
      TakeOut(offset);
      if size <= minHeap.Length / 4 && MINIMUM_SIZE <= minHeap.Length / 2 {
        Resize(minHeap.Length / 2);
      }
    }

    method RemoveMinimum()
      requires Valid() && Contents() != []
      modifies this, minHeap
      ensures Valid() && (minHeap == old(minHeap) || fresh(minHeap))
      ensures Contents() == HeapSpec.RemoveAt(old(Contents()), 0)
    {
      RemoveAt(0);
    }

    method RemoveByValue(value: V) returns (removed: bool)
      requires Valid()
      modifies this, minHeap
      ensures Valid() && (minHeap == old(minHeap) || fresh(minHeap))
      ensures removed == HeapSpec.HasValue(old(Contents()), value)
      ensures Contents() == HeapSpec.RemoveByValue(old(Contents()), value)
    {
      removed := value in offsets;
      if removed {
        HeapSpec.OffsetIsUnique(Contents(), value, offsets[value]);
        RemoveAt(offsets[value]);
      }
    }

    method InsertOrChangePriority(priority: int, value: V) returns (inserted: bool)
      requires Valid()
      modifies this, minHeap
      ensures Valid() && (minHeap == old(minHeap) || fresh(minHeap))
      ensures inserted == !HeapSpec.HasValue(old(Contents()), value)
      ensures Contents() == HeapSpec.InsertOrChange(old(Contents()), priority, value)
    {
      inserted := value !in offsets;
      assert inserted == !HeapSpec.HasValue(Contents(), value);
      if inserted {
        Insert(priority, value);
        return;
      }
      var offset := offsets[value];
      HeapSpec.OffsetIsUnique(Contents(), value, offset);
      Reprioritize(offset, priority);
    }

    method SetPriority(offset: nat, priority: int)
      requires Indexed(size) && offset < size
      modifies minHeap
      ensures Indexed(size)
      ensures minHeap[..size] == old(minHeap[..size])[offset := old(minHeap[offset]).(priority := priority)]
    {
      minHeap[offset] := minHeap[offset].(priority := priority);
    }

    /** The part of a change of priority that follows the lookup. */
    method Reprioritize(offset: nat, priority: int)
      requires Valid() && offset < size
      modifies minHeap, `offsets
      ensures Valid() && Contents() == HeapSpec.ChangePriority(old(Contents()), offset, priority)
    {
      SetPriority(offset, priority);
      if offset == 0 {
        BubbleDown(offset);
      } else {
        var parent := (offset - 1) / 2;
        var diff := minHeap[offset].priority - minHeap[parent].priority;
        if diff < 0 {
          BubbleUp(offset, size);
        } else if diff > 0 {
          BubbleDown(offset);
        }
      }
    }
  }

  class TimeoutQueue<Port(==, 0)> {
    var timeouts: PriorityQueue<Port>

    ghost predicate Valid()
      reads this, timeouts, timeouts.minHeap
    {
      timeouts.Valid()
    }

    ghost function Contents(): (h: seq<Entry<Port>>)
      requires Valid()
      reads this, timeouts, timeouts.minHeap
    {
      timeouts.Contents()
    }

    constructor ()
      ensures Valid() && fresh(timeouts) && fresh(timeouts.minHeap) && Contents() == []
    {
      timeouts := new PriorityQueue<Port>();
    }

    method HasTimeout() returns (b: bool)
      requires Valid()
      ensures b == (Contents() != [])
    {
      b := timeouts.IsEmpty();
      b := !b;
    }

    method CurrentTimeout() returns (t: int)
      requires Valid() && Contents() != []
      ensures t == Contents()[0].priority
    {
      var e := timeouts.Minimum();
      t := e.priority;
    }

    method CurrentPort() returns (p: Port)
      requires Valid() && Contents() != []
      ensures p == Contents()[0].value
    {
      var e := timeouts.Minimum();
      p := e.value;
    }

    method RemoveCurrent()
      requires Valid() && Contents() != []
      modifies timeouts, timeouts.minHeap
      ensures Valid() && (timeouts.minHeap == old(timeouts.minHeap) || fresh(timeouts.minHeap))
      ensures Contents() == HeapSpec.RemoveAt(old(Contents()), 0)
    {
      timeouts.RemoveMinimum();
    }

    method UpdateTimeout(port: Port, timeout: int)
      requires Valid()
      modifies timeouts, timeouts.minHeap
      ensures Valid() && (timeouts.minHeap == old(timeouts.minHeap) || fresh(timeouts.minHeap))
      ensures Contents() == HeapSpec.UpdateTimeout(old(Contents()), port, timeout)
    {
      if timeout < 0 {
        var _ := timeouts.RemoveByValue(port);
      } else {
        var _ := timeouts.InsertOrChangePriority(timeout, port);
      }
    }
  }
}
