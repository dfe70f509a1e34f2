/** Texts split at a separator. */
module Texts {
  import opened Results

  /** The text before and after the first separator. */
  function SplitAt(line: string, separator: char): (parts: Option<(string, string)>)
    ensures parts.Some? <==> separator in line
    ensures parts.Some? ==> line == parts.value.0 + [separator] + parts.value.1 && separator !in parts.value.0
  {
    if line == [] then None
    else if line[0] == separator then Some(([], line[1..]))
    else
      assert line == [line[0]] + line[1..];
      var rest := SplitAt(line[1..], separator);
      if rest.None? then None else Some(([line[0]] + rest.value.0, rest.value.1))
  }

  lemma {:induction false} SplitIsUnique(a: string, b: string, a': string, b': string, separator: char)
    requires separator !in a && separator !in a'
    requires a + [separator] + b == a' + [separator] + b'
    ensures a == a' && b == b'
  {
    var line, line' := a + [separator] + b, a' + [separator] + b';
    assert a != [] ==> line[0] == a[0] && a[0] in a;
    assert a' != [] ==> line'[0] == a'[0] && a'[0] in a';
    assert a == [] ==> line[0] == separator;
    assert a' == [] ==> line'[0] == separator;
    if a != [] {
      assert line[1..] == a[1..] + [separator] + b && line'[1..] == a'[1..] + [separator] + b';
      SplitIsUnique(a[1..], b, a'[1..], b', separator);
    } else {
      assert line[1..] == b && line'[1..] == b';
    }
  }

  /** The text before and after the last separator. */
  function SplitLast(line: string, separator: char): (parts: Option<(string, string)>)
    ensures parts.Some? <==> separator in line
    ensures parts.Some? ==> line == parts.value.0 + [separator] + parts.value.1 && separator !in parts.value.1
  {
    if line == [] then None
    else
      var (front, last) := (line[..|line| - 1], line[|line| - 1]);
      assert line == front + [last];
      if last == separator then Some((front, []))
      else
        var rest := SplitLast(front, separator);
        if rest.None? then None else Some((rest.value.0, rest.value.1 + [last]))
  }

  lemma {:induction false} LastSplitIsUnique(a: string, b: string, separator: char)
    requires separator !in b
    ensures SplitLast(a + [separator] + b, separator) == Some((a, b))
  {
    var line := a + [separator] + b;
    if b == [] {
      assert line[..|line| - 1] == a;
    } else {
      var k := |b| - 1;
      assert line[..|line| - 1] == a + [separator] + b[..k] && line[|line| - 1] == b[k];
      assert b[k] in b && b == b[..k] + [b[k]];
      LastSplitIsUnique(a, b[..k], separator);
    }
  }
}
