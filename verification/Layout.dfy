/** How types lie in memory, and what the front end takes the offsets of fields to be. */
module Layout {
  import opened Arithmetic

  type pos = x: nat | x > 0 witness 1

  datatype Type =
    | Scalar(size: nat, align: pos)
    | Arr(length: nat, elem: Type)
    | Struct(fields: seq<Type>)

  function AlignOf(t: Type): pos
    decreases t, if t.Struct? then |t.fields| + 1 else 0
  {
    match t
    case Scalar(_, align) => align
    case Arr(_, elem) => AlignOf(elem)
    case Struct(fields) => MaxAlign(t, |fields|)
  }

  function MaxAlign(t: Type, k: nat): pos
    requires t.Struct? && k <= |t.fields|
    decreases t, k
  {
    if k == 0 then 1
    else
      var a, m := AlignOf(t.fields[k - 1]), MaxAlign(t, k - 1);
      if a > m then a else m
  }

  // The bytes from one element of the type to the next.
  function AllocSize(t: Type): nat
    decreases t, if t.Struct? then |t.fields| + 1 else 0
  {
    match t
    case Scalar(size, align) => AlignUp(size, align)
    case Arr(length, elem) => length * AllocSize(elem)
    case Struct(fields) => AlignUp(EndBefore(t, |fields|), AlignOf(t))
  }

  // Where the first k fields end.
  function EndBefore(t: Type, k: nat): nat
    requires t.Struct? && k <= |t.fields|
    decreases t, k
  {
    if k == 0 then 0 else AlignUp(EndBefore(t, k - 1), AlignOf(t.fields[k - 1])) + AllocSize(t.fields[k - 1])
  }

  // Where field k starts: at the next address that is fit for it.
  function FieldAt(t: Type, k: nat): nat
    requires t.Struct? && k < |t.fields|
  {
    AlignUp(EndBefore(t, k), AlignOf(t.fields[k]))
  }

  // The sizes of the first k fields.
  function SumBefore(t: Type, k: nat): nat
    requires t.Struct? && k <= |t.fields|
  {
    if k == 0 then 0 else SumBefore(t, k - 1) + AllocSize(t.fields[k - 1])
  }

  // What the front end takes for the start of a field: the sizes of the fields before it.
  method ElemOffset(t: Type, k: nat) returns (offset: nat)
    requires t.Struct? && k < |t.fields|
    ensures offset == SumBefore(t, k)
  {
    offset := 0;
    for i := 0 to k
      invariant offset == SumBefore(t, i)
    {
      offset := offset + AllocSize(t.fields[i]);
    }
  }

  // Every field up to the k-th may follow the one before it without a gap.
  predicate Packed(t: Type, k: nat)
    requires t.Struct? && k < |t.fields|
  {
    forall j | 0 <= j <= k :: FitsAt(t, j)
  }

  // The sizes before field k add up to an address that is fit for it.
  predicate FitsAt(t: Type, k: nat)
    requires t.Struct? && k < |t.fields|
  {
    SumBefore(t, k) % AlignOf(t.fields[k]) == 0
  }

  lemma AlignedAlready(n: nat, width: nat)
    requires width > 0
    ensures AlignUp(n, width) == n <==> n % width == 0
  {
    if n % width == 0 {
      var r := AlignUp(n, width);
      assert r == width * (r / width) && n == width * (n / width);
      assert r - n == width * (r / width - n / width);
      MultiplesApart(width, r / width - n / width);
    }
  }

  lemma PackedStep(t: Type, k: nat)
    requires t.Struct? && k < |t.fields|
    ensures Packed(t, k) <==> (k == 0 || Packed(t, k - 1)) && FitsAt(t, k)
  {}

  // The first k fields end no earlier than their sizes say, and just then if there is no gap.
  lemma {:induction false} GapsAdd(t: Type, k: nat)
    requires t.Struct? && k <= |t.fields|
    ensures EndBefore(t, k) >= SumBefore(t, k)
    ensures EndBefore(t, k) == SumBefore(t, k) <==> k == 0 || Packed(t, k - 1)
    decreases k, 0
  {
    if k > 0 {
      FieldOffsetRight(t, k - 1);
    }
  }

  // The offset of a field is right just when there is no gap before it; else it is too small.
  lemma {:induction false} FieldOffsetRight(t: Type, k: nat)
    requires t.Struct? && k < |t.fields|
    ensures SumBefore(t, k) <= FieldAt(t, k)
    ensures SumBefore(t, k) == FieldAt(t, k) <==> Packed(t, k)
    decreases k, 1
  {
    GapsAdd(t, k);
    PackedStep(t, k);
    UpIsSame(SumBefore(t, k), EndBefore(t, k), AlignOf(t.fields[k]));
  }

  lemma UpIsSame(sum: nat, end: nat, width: pos)
    requires sum <= end
    ensures sum <= AlignUp(end, width)
    ensures sum == AlignUp(end, width) <==> sum == end && sum % width == 0
  {
    AlignedAlready(end, width);
  }

  const BYTE_AND_WORD := Struct([Scalar(1, 1), Scalar(4, 4)])

  // The word is at 4, and is taken to be at 1.
  lemma ByteThenWord()
    ensures FieldAt(BYTE_AND_WORD, 1) == 4 && SumBefore(BYTE_AND_WORD, 1) == 1
  {
    var t := BYTE_AND_WORD;
    AlignedAlready(0, 1);
    AlignedAlready(1, 1);
    assert SumBefore(t, 1) == SumBefore(t, 0) + AllocSize(t.fields[0]);
    assert EndBefore(t, 1) == AlignUp(EndBefore(t, 0), AlignOf(t.fields[0])) + AllocSize(t.fields[0]);
  }

  // ----- index paths

  // An index leads to an element, or to a field.
  predicate CanStep(t: Type, i: int) {
    (t.Arr? && 0 <= i < t.length) || (t.Struct? && 0 <= i < |t.fields|)
  }

  function Part(t: Type, i: int): Type
    requires CanStep(t, i)
  {
    if t.Arr? then t.elem else t.fields[i]
  }

  function PartAt(t: Type, i: int): nat
    requires CanStep(t, i)
  {
    if t.Arr? then i * AllocSize(t.elem) else FieldAt(t, i)
  }

  // All indices are in range.
  predicate IsPath(t: Type, path: seq<int>) {
    path == [] || (CanStep(t, path[0]) && IsPath(Part(t, path[0]), path[1..]))
  }

  function TypeAt(t: Type, path: seq<int>): Type
    requires IsPath(t, path)
  {
    if path == [] then t else TypeAt(Part(t, path[0]), path[1..])
  }

  function OffsetOf(t: Type, path: seq<int>): nat
    requires IsPath(t, path)
  {
    if path == [] then 0 else PartAt(t, path[0]) + OffsetOf(Part(t, path[0]), path[1..])
  }

  predicate IsPrefix(p: seq<int>, q: seq<int>) { |p| <= |q| && q[..|p|] == p }

  lemma {:induction false} FieldsInOrder(t: Type, i: nat, k: nat)
    requires t.Struct? && i < k <= |t.fields|
    ensures FieldAt(t, i) + AllocSize(t.fields[i]) <= EndBefore(t, k)
  {
    if i + 1 < k {
      FieldsInOrder(t, i, k - 1);
    }
  }

  // A part ends before the next begins, and inside the whole.
  lemma PartsInOrder(t: Type, i: int, k: int)
    requires CanStep(t, i) && i < k
    ensures PartAt(t, i) + AllocSize(Part(t, i)) <= AllocSize(t)
    ensures CanStep(t, k) ==> PartAt(t, i) + AllocSize(Part(t, i)) <= PartAt(t, k)
  {
    if t.Arr? {
      var size := AllocSize(t.elem);
      assert i * size + size == (i + 1) * size;
      ProductMonotone(size, i + 1, t.length);
      if k < t.length {
        ProductMonotone(size, i + 1, k);
      }
    } else {
      FieldsInOrder(t, i, |t.fields|);
      if k < |t.fields| {
        FieldsInOrder(t, i, k);
      }
    }
  }

  // A path leads into the type.
  lemma {:induction false} PathInside(t: Type, path: seq<int>)
    requires IsPath(t, path)
    ensures OffsetOf(t, path) + AllocSize(TypeAt(t, path)) <= AllocSize(t)
  {
    if path != [] {
      PathInside(Part(t, path[0]), path[1..]);
      PartsInOrder(t, path[0], path[0] + 1);
    }
  }

  // What paths lead to that part somewhere has no byte in common.
  lemma {:induction false} PathsApart(t: Type, p: seq<int>, q: seq<int>)
    requires IsPath(t, p) && IsPath(t, q) && !IsPrefix(p, q) && !IsPrefix(q, p)
    ensures OffsetOf(t, p) + AllocSize(TypeAt(t, p)) <= OffsetOf(t, q) || OffsetOf(t, q) + AllocSize(TypeAt(t, q)) <= OffsetOf(t, p)
    decreases |p|
  {
    if p[0] == q[0] {
      assert p == [p[0]] + p[1..] && q == [q[0]] + q[1..];
      PathsApart(Part(t, p[0]), p[1..], q[1..]);
    } else {
      PathInside(Part(t, p[0]), p[1..]);
      PathInside(Part(t, q[0]), q[1..]);
      if p[0] < q[0] {
        PartsInOrder(t, p[0], q[0]);
      } else {
        PartsInOrder(t, q[0], p[0]);
      }
    }
  }
}
