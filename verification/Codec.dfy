/** Readers and writers of values on byte sequences, and the laws that carry over from one
    value to many in a row. */
module Codec {
  import opened Wrappers
  import opened Lex

  /** A value read from the front, and the number of bytes it took. */
  datatype Parsed<+T> = Parsed(value: T, size: nat)

  type Reader<!T> = Bytes -> Option<Parsed<T>>
  type Writer<!T> = T -> Bytes

  predicate All<T>(good: T -> bool, xs: seq<T>) {
    forall i :: 0 <= i < |xs| ==> good(xs[i])
  }

  /** What is written of a good value is read back, whatever follows. */
  ghost predicate ReadsBack<T(!new)>(read: Reader<T>, write: Writer<T>, good: T -> bool) {
    forall x: T, t: Bytes :: good(x) ==> read(write(x) + t) == Some(Parsed(x, |write(x)|))
  }

  /** What is read is what would have been written: one encoding for each value. */
  ghost predicate Canonical<T>(read: Reader<T>, write: Writer<T>) {
    forall s: Bytes {:trigger read(s)} :: read(s).Some? ==> read(s).value.size <= |s| && s[..read(s).value.size] == write(read(s).value.value)
  }

  function ReadMany<T>(read: Reader<T>, s: Bytes, count: nat): (r: Option<Parsed<seq<T>>>)
    ensures r.Some? ==> r.value.size <= |s| && |r.value.value| == count
    decreases count
  {
    if count == 0 then Some(Parsed([], 0))
    else
      match read(s)
      case None => None
      case Some(first) =>
        if first.size > |s| then None
        else
          match ReadMany(read, s[first.size..], count - 1)
          case None => None
          case Some(rest) => Some(Parsed([first.value] + rest.value, first.size + rest.size))
  }

  function WriteMany<T>(write: Writer<T>, xs: seq<T>): Bytes {
    if xs == [] then [] else write(xs[0]) + WriteMany(write, xs[1..])
  }

  lemma Joins(a: Bytes, b: Bytes, c: Bytes)
    ensures (a + b) + c == a + (b + c) && (a + (b + c))[|a|..] == b + c
  {
  }

  lemma WriteManyFirst<T>(write: Writer<T>, x: T, xs: seq<T>)
    ensures WriteMany(write, [x] + xs) == write(x) + WriteMany(write, xs)
  {
  }

  lemma {:induction false} WriteManyConcat<T>(write: Writer<T>, xs: seq<T>, ys: seq<T>)
    ensures WriteMany(write, xs + ys) == WriteMany(write, xs) + WriteMany(write, ys)
  {
    if xs == [] {
      assert xs + ys == ys;
    } else {
      WriteManyConcat(write, xs[1..], ys);
      assert xs + ys == [xs[0]] + (xs[1..] + ys);
      WriteManyFirst(write, xs[0], xs[1..] + ys);
      Joins(write(xs[0]), WriteMany(write, xs[1..]), WriteMany(write, ys));
    }
  }

  lemma ReadManyStep<T>(read: Reader<T>, s: Bytes, first: Parsed<T>, after: Bytes, count: nat)
    requires count > 0 && read(s) == Some(first) && first.size <= |s| && after == s[first.size..]
    ensures ReadMany(read, s, count) ==
            match ReadMany(read, after, count - 1)
            case None => None
            case Some(rest) => Some(Parsed([first.value] + rest.value, first.size + rest.size))
  {
  }

  lemma {:induction false} ManyReadBack<T(!new)>(read: Reader<T>, write: Writer<T>, good: T -> bool, xs: seq<T>, t: Bytes)
    requires ReadsBack(read, write, good) && All(good, xs)
    ensures ReadMany(read, WriteMany(write, xs) + t, |xs|) == Some(Parsed(xs, |WriteMany(write, xs)|))
  {
    if xs != [] {
      var first, rest := write(xs[0]), WriteMany(write, xs[1..]);
      ManyReadBack(read, write, good, xs[1..], t);
      Joins(first, rest, t);
      assert read(first + (rest + t)) == Some(Parsed(xs[0], |first|));
      ReadManyStep(read, first + (rest + t), Parsed(xs[0], |first|), rest + t, |xs|);
      assert xs == [xs[0]] + xs[1..];
    }
  }

  lemma Splits(s: Bytes, a: nat, b: nat)
    requires a + b <= |s|
    ensures s[..a + b] == s[..a] + s[a..][..b]
  {
  }

  lemma WriteManyLast<T>(write: Writer<T>, xs: seq<T>, x: T)
    ensures WriteMany(write, xs + [x]) == WriteMany(write, xs) + write(x)
  {
    WriteManyConcat(write, xs, [x]);
    assert WriteMany(write, [x]) == write(x) + [];
  }

  lemma {:induction false} ManyCanonical<T>(read: Reader<T>, write: Writer<T>, s: Bytes, count: nat)
    requires Canonical(read, write) && ReadMany(read, s, count).Some?
    ensures var r := ReadMany(read, s, count).value; s[..r.size] == WriteMany(write, r.value)
    decreases count
  {
    if count > 0 {
      var first := read(s).value;
      var after := s[first.size..];
      var rest := ReadMany(read, after, count - 1).value;
      ManyCanonical(read, write, after, count - 1);
      WriteManyFirst(write, first.value, rest.value);
      Splits(s, first.size, rest.size);
    }
  }

  // ---- reading many in a loop --------------------------------------------

  /** Where the loop that reads `count0` values from s0 has got to: `seen` read, `count` left. */
  ghost predicate ManyOnCourse<T>(read: Reader<T>, s0: Bytes, count0: nat, seen: seq<T>, s: Bytes, count: nat, done: nat) {
    ReadMany(read, s0, count0) ==
    match ReadMany(read, s, count)
    case None => None
    case Some(r) => Some(Parsed(seen + r.value, done + r.size))
  }

  lemma ManyBegin<T>(read: Reader<T>, s: Bytes, count: nat)
    ensures ManyOnCourse(read, s, count, [], s, count, 0)
  {
    var r := ReadMany(read, s, count);
    if r.Some? { assert [] + r.value.value == r.value.value; }
  }

  lemma ManyNext<T>(read: Reader<T>, s0: Bytes, count0: nat, seen: seq<T>, s: Bytes, count: nat, done: nat, x: Parsed<T>,
                    seen': seq<T>, s': Bytes, count': nat, done': nat)
    requires ManyOnCourse(read, s0, count0, seen, s, count, done) && count > 0 && read(s) == Some(x) && x.size <= |s|
    requires seen' == seen + [x.value] && s' == s[x.size..] && count' == count - 1 && done' == done + x.size
    ensures ManyOnCourse(read, s0, count0, seen', s', count', done')
  {
    ReadManyStep(read, s, x, s', count);
    var r := ReadMany(read, s', count');
    if r.Some? { assert seen + ([x.value] + r.value.value) == seen' + r.value.value; }
  }

  lemma ManyEnd<T>(read: Reader<T>, s0: Bytes, count0: nat, seen: seq<T>, s: Bytes, done: nat)
    requires ManyOnCourse(read, s0, count0, seen, s, 0, done)
    ensures ReadMany(read, s0, count0) == Some(Parsed(seen, done))
  {
    assert seen + [] == seen;
  }
}
