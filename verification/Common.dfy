/** Datatypes shared by every component of the model. */
module Common {

  /** A value that may be absent: `null` or `undefined` in the program. */
  datatype Option<+T> = None | Some(value: T)

  /** The outcome of an operation that either succeeds or throws. */
  datatype Result<+T, +E> = Success(value: T) | Failure(error: E)

  function Or<T>(o: Option<T>, default: T): T {
    if o.Some? then o.value else default
  }

  function Elements<T>(s: seq<T>): set<T> {
    set x | x in s
  }

  ghost predicate NoDuplicates<T>(s: seq<T>) {
    forall i, j :: 0 <= i < j < |s| ==> s[i] != s[j]
  }

  function Abs(x: real): real {
    if x < 0.0 then -x else x
  }

  /** To two decimals, half up. */
  function Round2(x: real): real {
    (x * 100.0 + 0.5).Floor as real / 100.0
  }
}

/**
 The history of a stored value that changes over time: what it means for `v` to have been
 *the* value at an instant. Caches are judged against this.
 */
module History {

  /** From instant `at` the value was `value`, until the next moment in the list. */
  datatype Moment<V> = Moment(at: int, value: V)

  /** A copy of the value, with the instant and the moment it was read from. The last two are bookkeeping. */
  datatype Reading<+V> = Reading(value: V, at: int, moment: nat)

  function Latest<V>(past: seq<Moment<V>>): nat {
    if past == [] then 0 else |past| - 1
  }

  /** The copy really was the value at the instant it was read. At an instant of change both values count. */
  ghost predicate Genuine<V>(past: seq<Moment<V>>, r: Reading<V>) {
    && r.moment < |past|
    && past[r.moment].value == r.value
    && past[r.moment].at <= r.at
    && (r.moment + 1 < |past| ==> r.at <= past[r.moment + 1].at)
  }

  /** The history up to `now`, whose latest value is `current`. */
  ghost predicate UpTo<V>(past: seq<Moment<V>>, current: V, now: int) {
    && past != []
    && past[|past| - 1].value == current
    && past[|past| - 1].at <= now
  }
}
