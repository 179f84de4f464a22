/** Streams of variable-length codes: when one code is read back whatever
    follows it, so is a concatenation of them. */
module Framing {
  import opened Bits
  import opened Wrappers

  /** Writes an item at an address; None when it is refused. */
  type Writer<!T> = (T, nat) -> Option<seq<byte>>

  /** Reads the item at the head of the bytes at an address, with its length. */
  type Reader<!T> = (seq<byte>, nat) -> Option<(T, nat)>

  function WriteAll<T>(w: Writer<T>, xs: seq<T>, addr: nat): Option<seq<byte>>
  {
    if xs == [] then Some([])
    else match w(xs[0], addr)
      case None => None
      case Some(b) =>
        match WriteAll(w, xs[1..], addr + |b|)
        case None => None
        case Some(rest) => Some(b + rest)
  }

  function ReadAll<T>(r: Reader<T>, mem: seq<byte>, addr: nat): Option<seq<T>>
    decreases |mem|
  {
    if mem == [] then Some([])
    else match r(mem, addr)
      case None => None
      case Some((x, n)) =>
        if 0 < n <= |mem| then
          match ReadAll(r, mem[n..], addr + n)
          case None => None
          case Some(rest) => Some([x] + rest)
        else None
  }

  function MapSeq<T, U>(f: T -> U, xs: seq<T>): (ys: seq<U>)
    ensures |ys| == |xs|
    ensures forall i :: 0 <= i < |xs| ==> ys[i] == f(xs[i])
  {
    if xs == [] then [] else [f(xs[0])] + MapSeq(f, xs[1..])
  }

  /** X written at ADDR is read there as KEEP of it, whatever follows. */
  ghost predicate ReadsItem<T, U>(w: Writer<T>, r: Reader<U>, keep: T -> U, x: T, addr: nat, tail: seq<byte>)
  {
    w(x, addr).Some? ==>
      var b := w(x, addr).value;
      b != [] && r(b + tail, addr) == Some((keep(x), |b|))
  }

  ghost predicate ReadsBack<T(!new), U>(w: Writer<T>, r: Reader<U>, keep: T -> U)
  {
    forall x: T, addr: nat, tail: seq<byte> :: ReadsItem(w, r, keep, x, addr, tail)
  }

  lemma {:induction false} ReadAllAfterWriteAll<T(!new), U>(w: Writer<T>, r: Reader<U>, keep: T -> U,
                                                                 xs: seq<T>, addr: nat)
    requires ReadsBack(w, r, keep)
    requires WriteAll(w, xs, addr).Some?
    ensures ReadAll(r, WriteAll(w, xs, addr).value, addr) == Some(MapSeq(keep, xs))
  {
    if xs == [] {
    } else {
      var b := w(xs[0], addr).value;
      var rest := WriteAll(w, xs[1..], addr + |b|).value;
      ReadAllAfterWriteAll(w, r, keep, xs[1..], addr + |b|);
      assert ReadsItem(w, r, keep, xs[0], addr, rest);
      assert (b + rest)[|b|..] == rest;
    }
  }

  /** What is read at the head of MEM is written there as the same bytes when OK
      holds of them, and refused when it does not. */
  predicate WritesItem<T>(w: Writer<T>, r: Reader<T>, ok: (seq<byte>, nat) -> bool, mem: seq<byte>, addr: nat)
  {
    match r(mem, addr)
    case None => true
    case Some((x, n)) => 0 < n <= |mem| && w(x, addr) == if ok(mem, addr) then Some(mem[..n]) else None
  }

  ghost predicate WritesBack<T(!new)>(w: Writer<T>, r: Reader<T>, ok: (seq<byte>, nat) -> bool)
  {
    forall mem: seq<byte>, addr: nat :: WritesItem(w, r, ok, mem, addr)
  }

  /** OK holds of every item ReadAll meets. */
  predicate AllOk<T>(r: Reader<T>, ok: (seq<byte>, nat) -> bool, mem: seq<byte>, addr: nat)
    decreases |mem|
  {
    mem == [] ||
    match r(mem, addr)
    case None => true
    case Some((x, n)) => ok(mem, addr) && (0 < n <= |mem| ==> AllOk(r, ok, mem[n..], addr + n))
  }

  lemma {:induction false} WriteAllAfterReadAll<T(!new)>(w: Writer<T>, r: Reader<T>, ok: (seq<byte>, nat) -> bool,
                                                         mem: seq<byte>, addr: nat)
    requires WritesBack(w, r, ok)
    requires ReadAll(r, mem, addr).Some?
    ensures WriteAll(w, ReadAll(r, mem, addr).value, addr) == if AllOk(r, ok, mem, addr) then Some(mem) else None
    decreases |mem|
  {
    if mem == [] {
    } else {
      assert WritesItem(w, r, ok, mem, addr);
      var (x, n) := r(mem, addr).value;
      var rest := ReadAll(r, mem[n..], addr + n).value;
      WriteAllAfterReadAll(w, r, ok, mem[n..], addr + n);
      var xs := ReadAll(r, mem, addr).value;
      assert xs[0] == x && xs[1..] == rest;
      assert mem == mem[..n] + mem[n..];
    }
  }
}
