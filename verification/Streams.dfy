/** What it means for a writer or reader object to do what a codec function
    says, and the bookkeeping of loops over elements. */
module Streams {
  import opened Bytes

  /** A write either appends exactly e, or raises when there is no e. */
  ghost predicate Emits(before: bytes, e: Option<bytes>, ok: bool, after: bytes) {
    ok == e.Some? && (ok ==> after == before + e.value)
  }

  /** A read either yields what p yields and leaves what p leaves, or raises. */
  ghost predicate Takes<T>(p: Parsed<T>, r: Option<T>, after: bytes) {
    r.Some? == p.Ok? && (r.Some? ==> r.value == p.v && after == p.rest)
  }

  /** What a loop still has to write, behind what it has written. */
  ghost function Behind(done: bytes, e: Option<bytes>): Option<bytes> {
    if e.None? then None else Some(done + e.value)
  }

  /** What a loop still has to read, behind what it has read. */
  ghost function After<T>(out: seq<T>, p: Parsed<seq<T>>): Parsed<seq<T>> {
    if p.Err? then Err else Ok(out + p.v, p.rest)
  }

  lemma BehindAll(done: bytes)
    ensures Behind(done, Some([])) == Some(done)
  {
    assert done + [] == done;
  }

  lemma AfterNothing<T>(p: Parsed<seq<T>>)
    ensures After([], p) == p
  {
    if p.Ok? { assert [] + p.v == p.v; }
  }

  lemma BehindMore(done: bytes, e: bytes, tail: Option<bytes>)
    ensures Behind(done, Behind(e, tail)) == Behind(done + e, tail)
  {
    if tail.Some? { assert done + (e + tail.value) == done + e + tail.value; }
  }

  lemma AfterMore<T>(out: seq<T>, x: T, p: Parsed<seq<T>>)
    ensures After(out, After([x], p)) == After(out + [x], p)
  {
    if p.Ok? { assert out + ([x] + p.v) == out + [x] + p.v; }
  }

  lemma AfterAll<T>(out: seq<T>, bs: bytes)
    ensures After(out, Ok([], bs)) == Ok(out, bs)
  {
    assert out + [] == out;
  }
}
