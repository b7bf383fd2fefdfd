/** Numbers in network byte order, and the ends of a packet buffer they are written to and read from. */
module Octets {
  import opened Options

  type Octet = o: nat | o < 0x100

  type UInt16 = v: nat | v < 0x1_0000

  type UInt32 = v: nat | v < 0x1_0000_0000

  type Octets = seq<Octet>

  function Power(width: nat): (p: nat)
    ensures p > 0
  {
    if width == 0 then 1 else 0x100 * Power(width - 1)
  }

  lemma Powers()
    ensures Power(1) == 0x100 && Power(2) == 0x1_0000 && Power(4) == 0x1_0000_0000
    ensures Power(6) == 0x1_0000_0000_0000 && Power(8) == 0x1_0000_0000_0000_0000
  {
    assert Power(2) == 0x100 * Power(1) && Power(3) == 0x100 * Power(2) && Power(5) == 0x100 * Power(4)
        && Power(7) == 0x100 * Power(6);
  }

  /** The most significant octet first. */
  function Put(v: nat, width: nat): (b: Octets)
    ensures |b| == width
  {
    if width == 0 then [] else Put(v / 0x100, width - 1) + [v % 0x100]
  }

  function Get(b: Octets): (v: nat)
    ensures v < Power(|b|)
  {
    if b == [] then 0 else Get(b[..|b| - 1]) * 0x100 + b[|b| - 1]
  }

  lemma {:induction false} GetPut(v: nat, width: nat)
    requires v < Power(width)
    ensures Get(Put(v, width)) == v
  {
    if width == 0 {
    } else {
      GetPut(v / 0x100, width - 1);
      assert Put(v, width)[..width - 1] == Put(v / 0x100, width - 1);
    }
  }

  // ---------- Reading at a position ----------

  predicate Available(b: Octets, pos: nat, width: nat) {
    pos + width <= |b|
  }

  function GetAt(b: Octets, pos: nat, width: nat): (v: nat)
    requires Available(b, pos, width)
    ensures v < Power(width)
  {
    Get(b[pos..pos + width])
  }

  /** The octets at a position are those of the given string. */
  ghost predicate At(b: Octets, pos: nat, part: Octets) {
    Available(b, pos, |part|) && b[pos..pos + |part|] == part
  }

  lemma AtPut(b: Octets, pos: nat, v: nat, width: nat)
    requires At(b, pos, Put(v, width)) && v < Power(width)
    ensures GetAt(b, pos, width) == v
  {
    GetPut(v, width);
  }

  lemma AtSplits(b: Octets, pos: nat, first: Octets, second: Octets)
    ensures At(b, pos, first + second) <==> At(b, pos, first) && At(b, pos + |first|, second)
  {
    var whole := first + second;
    if At(b, pos, whole) {
      assert b[pos..pos + |first|] == b[pos..pos + |whole|][..|first|] == first;
      assert b[pos + |first|..pos + |whole|] == b[pos..pos + |whole|][|first|..] == second;
    }
    if At(b, pos, first) && At(b, pos + |first|, second) {
      assert b[pos..pos + |whole|] == b[pos..pos + |first|] + b[pos + |first|..pos + |whole|];
    }
  }

  // ---------- Where the octets of a number are ----------

  /** Octet k of a number in the given width, the most significant one first. */
  ghost function Digit(v: nat, width: nat, k: nat): Octet
    requires k < width
  {
    v / Power(width - 1 - k) % 0x100
  }

  /** At the position stands the number in the given width. */
  ghost predicate Stands(b: Octets, pos: nat, v: nat, width: nat) {
    Available(b, pos, width) && forall k | 0 <= k < width :: b[pos..pos + width][k] == Digit(v, width, k)
  }

  lemma DividedTwice(v: nat, p: nat)
    requires p > 0
    ensures v / 0x100 / p == v / (0x100 * p)
  {
    var q, r := v / (0x100 * p), v % (0x100 * p);
    assert v == 0x100 * (p * q) + r && 0 <= r < 0x100 * p;
    assert v / 0x100 == p * q + r / 0x100 && 0 <= r / 0x100 < p;
    DivisionIs(v / 0x100, p, q, r / 0x100);
  }

  lemma DivisionIs(v: nat, p: nat, q: nat, r: nat)
    requires v == p * q + r && r < p
    ensures v / p == q
  {
    assert p * (v / p - q) == r - v % p;
    if v / p != q {
      Multiple(p, v / p - q);
    }
  }

  lemma Multiple(p: nat, d: int)
    requires d != 0
    ensures p * d >= p || p * d + p <= 0
  {
  }

  lemma {:induction false} PutDigits(v: nat, width: nat)
    ensures forall k | 0 <= k < width :: Put(v, width)[k] == Digit(v, width, k)
  {
    if width == 0 {
    } else {
      PutDigits(v / 0x100, width - 1);
      var b := Put(v, width);
      forall k | 0 <= k < width
        ensures b[k] == Digit(v, width, k)
      {
        if k < width - 1 {
          assert b[k] == Put(v / 0x100, width - 1)[k];
          DividedTwice(v, Power(width - 2 - k));
        }
      }
    }
  }

  lemma AtStands(b: Octets, pos: nat, v: nat, width: nat)
    requires At(b, pos, Put(v, width))
    ensures Stands(b, pos, v, width)
  {
    PutDigits(v, width);
  }

  // ---------- Lists of elements of one width ----------

  lemma NextMultiple(i: nat, n: nat, width: nat)
    requires i < n
    ensures (i + 1) * width == i * width + width <= n * width
  {
    assert n * width == (i + 1) * width + (n - i - 1) * width;
  }

  /** An element is written in the given width and read back as it was. */
  ghost predicate Faithful<T(!new)>(width: nat, put: T -> Octets, get: Octets --> T) {
    && (forall c: Octets | |c| == width :: get.requires(c))
    && (forall x :: |put(x)| == width)
    && (forall x :: get.requires(put(x)) && get(put(x)) == x)
  }

  function PutAll<T>(xs: seq<T>, put: T -> Octets): Octets {
    if xs == [] then [] else PutAll(xs[..|xs| - 1], put) + put(xs[|xs| - 1])
  }

  function GetAll<T>(b: Octets, pos: nat, n: nat, width: nat, get: Octets --> T): (xs: seq<T>)
    requires Available(b, pos, n * width) && forall c: Octets | |c| == width :: get.requires(c)
    ensures |xs| == n
    decreases n
  {
    if n == 0 then []
    else
      assert n * width == (n - 1) * width + width;
      GetAll(b, pos, n - 1, width, get) + [get(b[pos + (n - 1) * width..pos + n * width])]
  }

  lemma {:induction false} PutAllWidth<T(!new)>(xs: seq<T>, width: nat, put: T -> Octets, get: Octets --> T)
    requires Faithful(width, put, get)
    ensures |PutAll(xs, put)| == |xs| * width
  {
    if xs == [] {
    } else {
      PutAllWidth(xs[..|xs| - 1], width, put, get);
      assert |xs| * width == (|xs| - 1) * width + width;
    }
  }

  /** Element k of a written list stands k widths after its start. */
  lemma {:induction false} ElementAt<T(!new)>(b: Octets, pos: nat, xs: seq<T>, width: nat,
                                              put: T -> Octets, get: Octets --> T, k: nat)
    requires Faithful(width, put, get) && At(b, pos, PutAll(xs, put)) && k < |xs|
    ensures At(b, pos + k * width, put(xs[k]))
    decreases |xs|
  {
    var front, last := xs[..|xs| - 1], xs[|xs| - 1];
    PutAllWidth(front, width, put, get);
    AtSplits(b, pos, PutAll(front, put), put(last));
    if k < |front| {
      ElementAt(b, pos, front, width, put, get, k);
    }
  }

  lemma {:induction false} GetAllPut<T(!new)>(b: Octets, pos: nat, xs: seq<T>, width: nat,
                                              put: T -> Octets, get: Octets --> T)
    requires Faithful(width, put, get) && At(b, pos, PutAll(xs, put))
    ensures |PutAll(xs, put)| == |xs| * width && GetAll(b, pos, |xs|, width, get) == xs
    decreases |xs|
  {
    PutAllWidth(xs, width, put, get);
    if xs == [] {
    } else {
      var front, last := xs[..|xs| - 1], xs[|xs| - 1];
      PutAllWidth(front, width, put, get);
      AtSplits(b, pos, PutAll(front, put), put(last));
      GetAllPut(b, pos, front, width, put, get);
      assert |xs| * width == |front| * width + width;
    }
  }

  lemma {:induction false} PutAllSplits<T>(a: seq<T>, b: seq<T>, put: T -> Octets)
    ensures PutAll(a + b, put) == PutAll(a, put) + PutAll(b, put)
    decreases |b|
  {
    if b == [] {
      assert a + b == a;
    } else {
      var front := b[..|b| - 1];
      assert (a + b)[..|a + b| - 1] == a + front;
      PutAllSplits(a, front, put);
    }
  }

  // ---------- Buffer iterators ----------

  class Writer {
    var bytes: Octets

    constructor ()
      ensures bytes == []
    {
      bytes := [];
    }

    method Write(v: nat, width: nat)
      modifies this
      ensures bytes == old(bytes) + Put(v, width)
    {
      bytes := bytes + Put(v, width);
    }

    /** Writes the elements of a list one after the other. */
    method WriteAll<T>(xs: seq<T>, put: T -> Octets)
      modifies this
      ensures bytes == old(bytes) + PutAll(xs, put)
    {
      for i := 0 to |xs|
        invariant bytes == old(bytes) + PutAll(xs[..i], put)
      {
        assert xs[..i + 1][..i] == xs[..i];
        bytes := bytes + put(xs[i]);
      }
      assert xs[..|xs|] == xs;
    }
  }

  class Reader {
    const bytes: Octets
    var position: nat

    constructor (bytes: Octets, position: nat)
      ensures this.bytes == bytes && this.position == position
    {
      this.bytes, this.position := bytes, position;
    }

    /** Nothing is read past the end of the buffer. */
    method Read(width: nat) returns (v: Option<nat>)
      modifies this
      ensures v == if Available(bytes, old(position), width) then Some(GetAt(bytes, old(position), width)) else None
      ensures position == if v == None then old(position) else old(position) + width
    {
      if position + width > |bytes| {
        return None;
      }
      v := Some(GetAt(bytes, position, width));
      position := position + width;
    }

    /** Reads the elements of a list one after the other, unless the buffer is too short for all. */
    method ReadAll<T>(n: nat, width: nat, get: Octets --> T) returns (xs: Option<seq<T>>)
      requires position <= |bytes| && forall c: Octets | |c| == width :: get.requires(c)
      modifies this
      ensures xs == if Available(bytes, old(position), n * width) then Some(GetAll(bytes, old(position), n, width, get))
                else None
      ensures xs != None ==> position == old(position) + n * width
    {
      var pos := position;
      var read: seq<T> := [];
      for i := 0 to n
        invariant Available(bytes, pos, i * width) && position == pos + i * width
        invariant read == GetAll(bytes, pos, i, width, get)
      {
        NextMultiple(i, n, width);
        if position + width > |bytes| {
          return None;
        }
        read := read + [get(bytes[position..position + width])];
        position := position + width;
      }
      return Some(read);
    }
  }
}
