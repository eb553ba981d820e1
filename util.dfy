/** The list converters of util/util.go. Each allocates a result of the input's length and
    fills it position by position. */
module Util {
  import opened Entries

  /** The string a value prints as: a string prints as itself; for every other value the
      formatting routine `sprint` (the source's fmt.Sprint, not modelled) decides. */
  function Render(v: Value, sprint: Value -> string): string {
    if v.Str? then v.s else sprint(v)
  }

  /** The strings as untyped values, in order. */
  function AsValues(list: seq<string>): (r: seq<Value>)
    ensures |r| == |list|
    ensures forall i :: 0 <= i < |list| ==> r[i] == Str(list[i])
  {
    seq(|list|, i requires 0 <= i < |list| => Str(list[i]))
  }

  /** The values as the strings they print as, in order. */
  function AsStrings(list: seq<Value>, sprint: Value -> string): (r: seq<string>)
    ensures |r| == |list|
    ensures forall i :: 0 <= i < |list| ==> r[i] == Render(list[i], sprint)
  {
    seq(|list|, i requires 0 <= i < |list| => Render(list[i], sprint))
  }

  /** StringListToInterfaceList: element `i` of the result is element `i` of the input. */
  method StringListToInterfaceList(list: seq<string>) returns (res: seq<Value>)
    ensures |res| == |list|
    ensures forall i :: 0 <= i < |list| ==> res[i] == Str(list[i])
    ensures res == AsValues(list)
  {
    var a := new Value[|list|];
    for i := 0 to |list|
      invariant forall j :: 0 <= j < i ==> a[j] == Str(list[j])
    {
      a[i] := Str(list[i]);
    }
    res := a[..];
  }

  /** InterfaceListToStringList: element `i` of the result is element `i` of the input printed;
      a string element is copied as it is. */
  method InterfaceListToStringList(list: seq<Value>, sprint: Value -> string) returns (res: seq<string>)
    ensures |res| == |list|
    ensures forall i :: 0 <= i < |list| ==> res[i] == Render(list[i], sprint)
    ensures forall i :: 0 <= i < |list| && list[i].Str? ==> res[i] == list[i].s
    ensures res == AsStrings(list, sprint)
  {
    var a := new string[|list|];
    for i := 0 to |list|
      invariant forall j :: 0 <= j < i ==> a[j] == Render(list[j], sprint)
    {
      a[i] := Render(list[i], sprint);
    }
    res := a[..];
  }

  /** Converting strings to values and back gives the same strings, whatever `sprint` does
      with values that are not strings. */
  lemma RoundTrip(list: seq<string>, sprint: Value -> string)
    ensures AsStrings(AsValues(list), sprint) == list
  {
  }

  /** On a list of string values, converting to strings and back gives the same list. */
  lemma RoundTripValues(list: seq<Value>, sprint: Value -> string)
    requires forall i :: 0 <= i < |list| ==> list[i].Str?
    ensures AsValues(AsStrings(list, sprint)) == list
  {
  }
}
