/**
 The growable array of vector.c: a heap-allocated block of `capacity` slots of which the
 first `size` are in use.  Every operation is proved against the same operation on a
 mathematical sequence (`Contents`), with the overlapping memmove calls written out.
 The element handlers are the shallow ones, the only ones the program ever installs.
 */
module Vectors {

  const INITIAL_CAPACITY: nat := 10

  /** One more than the largest size_t. */
  const SIZE_LIMIT: nat := 0x1_0000_0000_0000_0000
  const HALF_LIMIT: nat := 0x8000_0000_0000_0000

  datatype Ptr<T> = Null | To(value: T)

  // ---------------------------------------------------------------------------
  // Capacities
  // ---------------------------------------------------------------------------

  function Pow2(k: nat): nat {
    if k == 0 then 1 else 2 * Pow2(k - 1)
  }

  lemma {:induction false} Pow2Monotone(j: nat, k: nat)
    requires j <= k
    ensures Pow2(j) <= Pow2(k)
    ensures j < k ==> 2 * Pow2(j) <= Pow2(k)
  {
    if j < k {
      Pow2Monotone(j, k - 1);
    }
  }

  lemma Pow2Of63()
    ensures Pow2(63) == HALF_LIMIT
  {
    assert Pow2(10) == 1024;
    assert Pow2(20) == 1024 * 1024;
    assert Pow2(30) == 1024 * 1024 * 1024;
    assert Pow2(40) == 1024 * 1024 * 1024 * 1024;
    assert Pow2(50) == 1024 * 1024 * 1024 * 1024 * 1024;
    assert Pow2(60) == 1024 * 1024 * 1024 * 1024 * 1024 * 1024;
  }

  /** `c *= GROWTH_FACTOR` on a size_t, which drops what does not fit. */
  function Doubled(c: nat): (d: nat)
    requires c < SIZE_LIMIT
    ensures d < SIZE_LIMIT && d == 2 * c % SIZE_LIMIT
  {
    if 2 * c < SIZE_LIMIT then 2 * c else 2 * c - SIZE_LIMIT
  }

  /** The value the doubling loop holds after k rounds, in wrap-around size_t arithmetic. */
  function LoopValue(k: nat): (c: nat)
    ensures c < SIZE_LIMIT
  {
    if k == 0 then 1 else Doubled(LoopValue(k - 1))
  }

  lemma {:induction false} LoopValueIs(k: nat, top: nat)
    requires top == 63 && Pow2(top) == HALF_LIMIT
    ensures LoopValue(k) == if k <= top then Pow2(k) else 0
    ensures LoopValue(k) <= HALF_LIMIT
  {
    if k <= top {
      Pow2Monotone(k, top);
    }
    if k != 0 {
      LoopValueIs(k - 1, top);
    }
  }

  /** The doubling loop can stop exactly for targets up to 2^63; above that the value wraps to 0. */
  lemma GrowthStopsIffRepresentable(target: nat)
    ensures (exists k: nat :: target <= LoopValue(k)) <==> target <= HALF_LIMIT
  {
    Pow2Of63();
    var top := 63;
    LoopValueIs(top, top);
    if target > HALF_LIMIT {
      forall k: nat
        ensures LoopValue(k) < target
      {
        LoopValueIs(k, top);
      }
    }
  }

  /** `c` is the least power of two that is at least `target`. */
  ghost predicate LeastPowerAbove(c: nat, target: nat) {
    && target <= c
    && (exists k: nat :: c == Pow2(k))
    && (forall k: nat :: target <= Pow2(k) ==> c <= Pow2(k))
  }

  lemma LeastPowerUnique(c: nat, d: nat, target: nat)
    requires LeastPowerAbove(c, target) && LeastPowerAbove(d, target)
    ensures c == d
  {
  }

  method GetNewCapacity(target: nat) returns (c: nat)
    requires target <= HALF_LIMIT
    ensures LeastPowerAbove(c, target) && c <= HALF_LIMIT
  {
    c := 1;
    ghost var k: nat := 0;
    Pow2Of63();
    ghost var top := 63;
    while c < target
      invariant c == Pow2(k) && k <= top
      invariant forall j: nat :: j < k ==> Pow2(j) < target
      decreases top - k
    {
      Pow2Monotone(k + 1, top);
      c := Doubled(c);
      k := k + 1;
    }
    Pow2Monotone(k, top);
    forall j: nat | target <= Pow2(j)
      ensures c <= Pow2(j)
    {
      if j >= k {
        Pow2Monotone(k, j);
      }
    }
  }

  /** The only capacities that ever occur. */
  ghost predicate CapacityShape(c: nat) {
    c == INITIAL_CAPACITY || exists k: nat :: c == Pow2(k)
  }

  // ---------------------------------------------------------------------------
  // Overlapping moves
  // ---------------------------------------------------------------------------

  /** memmove inside one block: the destination receives the old source, overlap or not. */
  method Memmove<T>(a: array<T>, dest: nat, src: nat, count: nat)
    requires src + count <= a.Length && dest + count <= a.Length
    modifies a
    ensures forall p :: dest <= p < dest + count ==> a[p] == old(a[..])[p + src - dest]
    ensures forall p :: 0 <= p < a.Length && !(dest <= p < dest + count) ==> a[p] == old(a[..])[p]
  {
    ghost var was := a[..];
    if dest <= src {
      var i := 0;
      while i < count
        invariant 0 <= i <= count
        invariant forall p :: dest <= p < dest + i ==> a[p] == was[p + src - dest]
        invariant forall p :: 0 <= p < a.Length && !(dest <= p < dest + i) ==> a[p] == was[p]
      {
        a[dest + i] := a[src + i];
        i := i + 1;
      }
    } else {
      var i := count;
      while i > 0
        invariant 0 <= i <= count
        invariant forall p :: dest + i <= p < dest + count ==> a[p] == was[p + src - dest]
        invariant forall p :: 0 <= p < a.Length && !(dest + i <= p < dest + count) ==> a[p] == was[p]
      {
        i := i - 1;
        a[dest + i] := a[src + i];
      }
    }
  }

  // ---------------------------------------------------------------------------
  // The vector
  // ---------------------------------------------------------------------------

  ghost predicate AllNull<T>(s: seq<Ptr<T>>) {
    forall i :: 0 <= i < |s| ==> s[i] == Null
  }

  lemma SplicedIn<T>(s: seq<T>, t: seq<T>, position: nat, element: T)
    requires position <= |s| && |t| == |s| + 1 && t[position] == element
    requires forall i :: 0 <= i < position ==> t[i] == s[i]
    requires forall i :: position < i < |t| ==> t[i] == s[i - 1]
    ensures t == s[..position] + [element] + s[position..]
  {
  }

  lemma SplicedOut<T>(s: seq<T>, t: seq<T>, position: nat)
    requires position < |s| && |t| == |s| - 1
    requires forall i :: 0 <= i < position ==> t[i] == s[i]
    requires forall i :: position <= i < |t| ==> t[i] == s[i + 1]
    ensures t == s[..position] + s[position + 1..]
  {
  }

  /** The body of vector_erase for a position before the last. */
  method CloseGap<T>(a: array<Ptr<T>>, size: nat, position: nat)
    requires position + 1 < size <= a.Length
    modifies a
    ensures a[..size - 1] == old(a[..size])[..position] + old(a[..size])[position + 1..]
    ensures a[size - 1] == Null
    ensures forall i :: size <= i < a.Length ==> a[i] == old(a[i])
  {
    ghost var was := a[..size];
    a[position] := Null;
    ghost var mid := a[..];
    Memmove(a, position, position + 1, size - position - 1);
    a[size - 1] := Null;
    forall i | position <= i < size - 1
      ensures a[i] == was[i + 1]
    {
      assert a[i] == mid[i + 1];
    }
    SplicedOut(was, a[..size - 1], position);
  }

  /** The body of vector_insert once there is room. */
  method OpenGap<T>(a: array<Ptr<T>>, size: nat, position: nat, element: Ptr<T>)
    requires position <= size < a.Length
    modifies a
    ensures a[..size + 1] == old(a[..size])[..position] + [element] + old(a[..size])[position..]
    ensures forall i :: size < i < a.Length ==> a[i] == old(a[i])
  {
    if position < size {
      Memmove(a, position + 1, position, size - position);
    }
    a[position] := element;
    SplicedIn(old(a[..size]), a[..size + 1], position, element);
  }

  /** The clearing loop of vector_resize, whose bound `n - 1` wraps when n is 0. */
  method ClearDownTo<T>(a: array<Ptr<T>>, size: nat, n: nat)
    requires n < size <= a.Length < SIZE_LIMIT
    modifies a
    ensures forall i :: 0 <= i < a.Length && (n == 0 || !(n <= i < size)) ==> a[i] == old(a[i])
    ensures n > 0 ==> forall i :: n <= i < size ==> a[i] == Null
  {
    var bound := if n == 0 then SIZE_LIMIT - 1 else n - 1;
    var i := size - 1;
    while i > bound
      invariant n == 0 ==> i == size - 1
      invariant n > 0 ==> bound <= i < size
      invariant forall j :: 0 <= j < a.Length && !(i < j < size) ==> a[j] == old(a[j])
      invariant forall j :: i < j < size ==> a[j] == Null
    {
      a[i] := Null;
      i := i - 1;
    }
  }

  class Vector<T> {
    var slots: array<Ptr<T>>
    var size: nat
    var capacity: nat

    /** How many slots reallocation has copied so far. */
    ghost var moved: nat

    ghost predicate Valid()
      reads this, slots
    {
      && slots.Length == capacity
      && size <= capacity <= HALF_LIMIT
      && CapacityShape(capacity)
    }

    /** The abstract value. */
    ghost function Contents(): seq<Ptr<T>>
      requires Valid()
      reads this, slots
    {
      slots[..size]
    }

    /** Every slot past `size` is NULL. */
    ghost predicate Clean()
      requires Valid()
      reads this, slots
    {
      forall i :: size <= i < capacity ==> slots[i] == Null
    }

    ghost function Cost(): Growth
      reads this
    {
      Growth(size, capacity, moved)
    }

    constructor ()
      ensures Valid() && Clean() && fresh(slots)
      ensures Contents() == [] && Cost() == Growth(0, 10, 0)
    {
      var block := new Ptr<T>[INITIAL_CAPACITY];
      slots := block;
      size := 0;
      capacity := INITIAL_CAPACITY;
      moved := 0;
      new;
      var i := 0;
      while i < capacity
        invariant 0 <= i <= capacity == slots.Length == INITIAL_CAPACITY
        invariant size == 0 && moved == 0 && fresh(slots)
        invariant forall j :: 0 <= j < i ==> slots[j] == Null
      {
        slots[i] := Null;
        i := i + 1;
      }
    }

    method Reserve(n: nat)
      requires Valid() && n <= HALF_LIMIT
      modifies this, slots
      ensures Valid() && (slots == old(slots) || fresh(slots))
      ensures Contents() == old(Contents()) && size == old(size)
      ensures n <= old(capacity) ==> capacity == old(capacity) && moved == old(moved)
      ensures n > old(capacity) ==> LeastPowerAbove(capacity, n) && moved == old(moved) + old(capacity)
      ensures old(Clean()) ==> Clean()
    {
      if n > capacity {
        var newcap := GetNewCapacity(n);
        // realloc: the old block's slots are copied, the rest of the new block is cleared
        var block := new Ptr<T>[newcap];
        var i := 0;
        while i < newcap
          invariant 0 <= i <= newcap
          invariant Valid() && unchanged(this) && unchanged(slots)
          invariant forall j :: 0 <= j < i ==> block[j] == if j < capacity then slots[j] else Null
        {
          block[i] := if i < capacity then slots[i] else Null;
          i := i + 1;
        }
        moved := moved + capacity;
        slots := block;
        capacity := newcap;
      }
    }

    method Get(position: nat) returns (element: Ptr<T>)
      requires Valid() && position < size
      ensures element == Contents()[position]
    {
      element := slots[position];
    }

    method Set(position: nat, element: Ptr<T>)
      requires Valid() && position < size
      modifies slots
      ensures Valid() && Contents() == old(Contents())[position := element]
      ensures old(Clean()) ==> Clean()
    {
      slots[position] := element;
    }

    method PushBack(element: Ptr<T>)
      requires Valid() && size < HALF_LIMIT
      modifies this, slots
      ensures Valid() && (slots == old(slots) || fresh(slots))
      ensures Contents() == old(Contents()) + [element]
      ensures PushStep(old(Cost()), Cost())
      ensures old(Clean()) ==> Clean()
    {
      var newsize := size + 1;
      if newsize > capacity {
        Reserve(newsize);
      }
      slots[size] := element;
      size := size + 1;
    }

    method PopBack()
      requires Valid()
      modifies this`size, slots
      ensures Valid()
      ensures Contents() == if old(size) == 0 then [] else old(Contents())[..old(size) - 1]
      ensures old(Clean()) ==> Clean()
    {
      if size == 0 {
        return;
      }
      slots[size - 1] := Null;
      size := size - 1;
    }

    method Insert(position: nat, element: Ptr<T>)
      requires Valid() && position <= size < HALF_LIMIT
      modifies this, slots
      ensures Valid() && (slots == old(slots) || fresh(slots))
      ensures Contents() == old(Contents())[..position] + [element] + old(Contents())[position..]
      ensures old(Clean()) ==> Clean()
    {
      var newsize := size + 1;
      if newsize > capacity {
        Reserve(newsize);
      }
      OpenGap(slots, size, position, element);
      size := size + 1;
    }

    method Erase(position: nat)
      requires Valid() && position < size
      modifies this`size, slots
      ensures Valid()
      ensures Contents() == old(Contents())[..position] + old(Contents())[position + 1..]
      ensures old(Clean()) ==> Clean()
    {
      if position == size - 1 {
        PopBack();
        SplicedOut(old(Contents()), Contents(), position);
        return;
      }
      CloseGap(slots, size, position);
      size := size - 1;
    }

    method Clear()
      requires Valid()
      modifies this`size, slots
      ensures Valid() && Contents() == []
      ensures old(Clean()) ==> Clean()
    {
      var i := 0;
      while i < size
        invariant 0 <= i <= size == old(size)
        invariant Valid()
        invariant forall j :: 0 <= j < i ==> slots[j] == Null
        invariant forall j :: size <= j < capacity ==> slots[j] == old(slots[j])
      {
        slots[i] := Null;
        i := i + 1;
      }
      size := 0;
    }

    /**
     The bound `n - 1` of the clearing loop wraps for n == 0, so the loop is skipped and the
     old elements stay behind in the block: the tail is clean afterwards exactly when n > 0 or
     there was nothing but NULL to clear.
     */
    method Resize(n: nat)
      requires Valid() && n <= HALF_LIMIT
      modifies this, slots
      ensures Valid() && (slots == old(slots) || fresh(slots))
      ensures n <= old(size) ==> Contents() == old(Contents())[..n]
      ensures n > old(size) ==> Contents() == old(Contents()) + seq(n - old(size), _ => Null)
      ensures old(Clean()) ==> (Clean() <==> n > 0 || AllNull(old(Contents())))
    {
      if n == size {
        return;
      } else if n < size {
        ClearDownTo(slots, size, n);
      } else {
        if n > capacity {
          Reserve(n);
        }
        var i := size;
        while i < n
          invariant size <= i <= n <= capacity
          invariant Valid() && size == old(size) && (slots == old(slots) || fresh(slots))
          invariant slots[..size] == old(Contents())
          invariant forall j :: size <= j < i ==> slots[j] == Null
          invariant old(Clean()) ==> Clean()
        {
          slots[i] := Null;
          i := i + 1;
        }
      }
      size := n;
    }
  }

  // ---------------------------------------------------------------------------
  // Growth cost
  // ---------------------------------------------------------------------------

  datatype Growth = Growth(size: nat, capacity: nat, moved: nat)

  /** What one vector_push_back does to the size, the capacity and the copy count. */
  ghost predicate PushStep(before: Growth, after: Growth) {
    && after.size == before.size + 1
    && if before.size + 1 <= before.capacity then
         after.capacity == before.capacity && after.moved == before.moved
       else
         LeastPowerAbove(after.capacity, before.size + 1) && after.moved == before.moved + before.capacity
  }

  /** A history of pushes on a new vector. */
  ghost predicate PushRun(run: seq<Growth>) {
    && |run| > 0
    && run[0] == Growth(0, INITIAL_CAPACITY, 0)
    && forall i :: 0 < i < |run| ==> PushStep(run[i - 1], run[i])
  }

  /** After the first growth everything ever copied plus six is the present capacity. */
  ghost predicate Settled(g: Growth) {
    && g.size <= g.capacity
    && if g.capacity == INITIAL_CAPACITY then g.moved == 0
       else 
         && g.moved + 6 == g.capacity
         && g.capacity < 2 * g.size
         && exists k: nat :: g.capacity == Pow2(k)
  }

  lemma NextPower(k: nat)
    ensures LeastPowerAbove(2 * Pow2(k), Pow2(k) + 1)
  {
    assert 2 * Pow2(k) == Pow2(k + 1);
    forall j: nat | Pow2(k) + 1 <= Pow2(j)
      ensures 2 * Pow2(k) <= Pow2(j)
    {
      if j <= k {
        Pow2Monotone(j, k);
      } else {
        Pow2Monotone(k, j);
      }
    }
  }

  lemma FirstGrowth(c: nat)
    requires LeastPowerAbove(c, INITIAL_CAPACITY + 1)
    ensures c == Pow2(4) == 16
  {
    assert Pow2(3) == 8;
    var k: nat :| c == Pow2(k);
    if k <= 3 {
      Pow2Monotone(k, 3);
    } else {
      Pow2Monotone(4, k);
    }
  }

  lemma LaterGrowth(k: nat, c: nat)
    requires LeastPowerAbove(c, Pow2(k) + 1)
    ensures c == 2 * Pow2(k) == Pow2(k + 1)
  {
    NextPower(k);
    LeastPowerUnique(c, 2 * Pow2(k), Pow2(k) + 1);
  }

  lemma PushKeepsSettled(before: Growth, after: Growth)
    requires Settled(before) && PushStep(before, after)
    ensures Settled(after)
  {
    if before.size == before.capacity {
      if before.capacity == INITIAL_CAPACITY {
        FirstGrowth(after.capacity);
      } else {
        var k: nat :| before.capacity == Pow2(k);
        LaterGrowth(k, after.capacity);
      }
    }
  }

  /** Amortised growth: n pushes on a new vector copy fewer than 2n slots in all. */
  lemma {:induction false} GrowthIsAmortised(run: seq<Growth>)
    requires PushRun(run)
    ensures run[|run| - 1].size == |run| - 1
    ensures Settled(run[|run| - 1])
    ensures |run| > 1 ==> run[|run| - 1].moved < 2 * (|run| - 1)
  {
    if |run| > 1 {
      var shorter := run[..|run| - 1];
      GrowthIsAmortised(shorter);
      PushKeepsSettled(run[|run| - 2], run[|run| - 1]);
    }
  }
}
