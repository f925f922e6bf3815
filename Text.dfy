/** String helpers with the semantics of the Java and commons-lang calls the core uses. */
module Text {

  import opened Wrappers

  /** `s.startsWith(p)` */
  predicate StartsWith(s: string, p: string)
  {
    |p| <= |s| && s[..|p|] == p
  }

  /** `s.endsWith(p)` */
  predicate EndsWith(s: string, p: string)
  {
    |p| <= |s| && s[|s| - |p|..] == p
  }

  /** Java's `String.trim` removes every leading and trailing character whose code is at most U+0020. */
  predicate IsTrimmed(c: char)
  {
    c <= ' '
  }

  function TrimLeft(s: string): (r: string)
    ensures |r| <= |s| && r == s[|s| - |r|..]
    ensures r == [] || !IsTrimmed(r[0])
    ensures forall i :: 0 <= i < |s| - |r| ==> IsTrimmed(s[i])
  {
    if s == [] || !IsTrimmed(s[0]) then s else TrimLeft(s[1..])
  }

  function TrimRight(s: string): (r: string)
    ensures |r| <= |s| && r == s[..|r|]
    ensures r == [] || !IsTrimmed(r[|r| - 1])
    ensures forall i :: |r| <= i < |s| ==> IsTrimmed(s[i])
  {
    if s == [] || !IsTrimmed(s[|s| - 1]) then s else TrimRight(s[..|s| - 1])
  }

  /** `StringUtils.trimToEmpty`: null becomes "", anything else is trimmed at both ends. */
  function TrimToEmpty(s: Option<string>): (r: string)
  {
    match s
    case None => ""
    case Some(v) => TrimRight(TrimLeft(v))
  }

  /** `StringUtils.join(list, sep)`: the items in order, `sep` between neighbours only. */
  function Join(items: seq<string>, sep: string): (r: string)
    decreases |items|
  {
    if items == [] then ""
    else if |items| == 1 then items[0]
    else items[0] + sep + Join(items[1..], sep)
  }

  lemma {:induction false} JoinAppend(items: seq<string>, item: string, sep: string)
    requires items != []
    ensures Join(items + [item], sep) == Join(items, sep) + sep + item
    decreases |items|
  {
    if |items| == 1 {
      assert items + [item] == [items[0], item];
    } else {
      assert (items + [item])[1..] == items[1..] + [item];
      JoinAppend(items[1..], item, sep);
    }
  }

  /** A joined list starts with its first item and ends with its last: no separator at either end. */
  lemma {:induction false} JoinEnds(items: seq<string>, sep: string)
    requires items != []
    ensures StartsWith(Join(items, sep), items[0])
    ensures EndsWith(Join(items, sep), items[|items| - 1])
    decreases |items|
  {
    if |items| > 1 {
      JoinEnds(items[1..], sep);
      var rest := Join(items[1..], sep);
      assert Join(items, sep) == (items[0] + sep) + rest;
    }
  }
}
