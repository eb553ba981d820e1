/** The cache item (`DataType` in datatype/datatype.go): a value, its time to live and the
    absolute instant at which it expires. Instants and durations are integers in one unit
    (nanoseconds in the source); the current instant is passed in as `now`. */
module Entries {

  /** The payload. The item's value is untyped in the source, and the constructors take a
      string, a list or a dictionary. Here the elements of a list or a dictionary are again
      strings, lists or dictionaries, and a list or dictionary is an immutable value. */
  datatype Value =
    | Str(s: string)
    | List(items: seq<Value>)
    | Dict(pairs: map<Value, Value>)

  /** A stored item. `deathTime` is derived from `ttl` when the item is written. */
  datatype Entry = Entry(value: Value, ttl: int, deathTime: int)

  /** NewString: a string item that dies `ttl` after `now`. */
  function NewString(value: string, ttl: int, now: int): (e: Entry)
    ensures e.value == Str(value) && e.ttl == ttl
    ensures e.deathTime == now + ttl
  {
    Entry(Str(value), ttl, now + ttl)
  }

  /** NewList: a list item that dies `ttl` after `now`. */
  function NewList(value: seq<Value>, ttl: int, now: int): (e: Entry)
    ensures e.value == List(value) && e.ttl == ttl
    ensures e.deathTime == now + ttl
  {
    Entry(List(value), ttl, now + ttl)
  }

  /** NewDict: a dictionary item that dies `ttl` after `now`. */
  function NewDict(value: map<Value, Value>, ttl: int, now: int): (e: Entry)
    ensures e.value == Dict(value) && e.ttl == ttl
    ensures e.deathTime == now + ttl
  {
    Entry(Dict(value), ttl, now + ttl)
  }

  /** The three constructors differ only in the kind of value: given the same ttl and the
      same instant they agree on `ttl` and `deathTime`. */
  lemma ConstructorsShareTiming(s: string, l: seq<Value>, d: map<Value, Value>, ttl: int, now: int)
    ensures NewString(s, ttl, now).ttl == NewList(l, ttl, now).ttl == NewDict(d, ttl, now).ttl
    ensures NewString(s, ttl, now).deathTime == NewList(l, ttl, now).deathTime
                                             == NewDict(d, ttl, now).deathTime
    ensures NewString(s, ttl, now) == NewString(s, ttl, now).(value := Str(s))
    ensures NewList(l, ttl, now) == NewString(s, ttl, now).(value := List(l))
    ensures NewDict(d, ttl, now) == NewString(s, ttl, now).(value := Dict(d))
  {
  }

  /** Created at the same instant, an item with a longer ttl dies strictly later. */
  lemma LongerTtlDiesLater(v: string, w: string, ttl1: int, ttl2: int, now: int)
    requires ttl1 < ttl2
    ensures NewString(v, ttl1, now).deathTime < NewString(w, ttl2, now).deathTime
  {
  }

  /** A non-negative ttl never yields a death time before the creation instant, whatever the
      kind of value; a zero ttl yields an item that dies at its creation instant. */
  lemma NonNegativeTtlNotBeforeNow(s: string, l: seq<Value>, d: map<Value, Value>, ttl: int, now: int)
    requires ttl >= 0
    ensures NewString(s, ttl, now).deathTime >= now
    ensures NewList(l, ttl, now).deathTime >= now
    ensures NewDict(d, ttl, now).deathTime >= now
    ensures ttl == 0 ==> NewString(s, ttl, now).deathTime == now
  {
  }
}
