/**
 Text as the sources handle it: a `string` stands for the UTF-8 bytes of a Rust string, one `char`
 per byte, so lengths, prefixes and offsets are byte lengths, byte prefixes and byte offsets.
 */
module Text {
  import opened Wrappers

  predicate StartsWith(s: string, prefix: string) {
    |prefix| <= |s| && s[..|prefix|] == prefix
  }

  predicate EndsWith(s: string, suffix: string) {
    |suffix| <= |s| && s[|s| - |suffix|..] == suffix
  }

  function LowerChar(c: char): char {
    if 'A' <= c <= 'Z' then c - 'A' + 'a' else c
  }

  function Lower(s: string): (lower: string)
    ensures |lower| == |s|
    ensures forall i :: 0 <= i < |s| ==> lower[i] == LowerChar(s[i])
  {
    seq(|s|, i requires 0 <= i < |s| => LowerChar(s[i]))
  }

  predicate EqIgnoreAsciiCase(a: string, b: string) {
    Lower(a) == Lower(b)
  }

  /** The byte rule of the `http` crate for field values. */
  predicate ValidHeaderValue(s: string) {
    forall c :: c in s ==> (' ' <= c && c != '\U{7f}') || c == '\t'
  }

  /** Offset of the last `c` in `s`. */
  function RFind(s: string, c: char): (position: Option<nat>)
    ensures position.Some? ==> position.value < |s| && s[position.value] == c
    ensures position.Some? ==> c !in s[position.value + 1..]
    ensures position.None? ==> c !in s
  {
    if s == "" then None
    else if s[|s| - 1] == c then Some(|s| - 1)
    else
      var r := RFind(s[..|s| - 1], c);
      assert r.Some? ==> s[r.value + 1..] == s[..|s| - 1][r.value + 1..] + [s[|s| - 1]];
      r
  }

  /** The UTF-8 bytes of one Unicode white space character. */
  predicate IsSpace(s: string) {
    match |s|
    case 1 => s[0] == ' ' || '\t' <= s[0] <= '\r'
    case 2 => s[0] == '\U{c2}' && (s[1] == '\U{85}' || s[1] == '\U{a0}')
    case 3 =>
      || s == ['\U{e1}', '\U{9a}', '\U{80}'] || s == ['\U{e2}', '\U{81}', '\U{9f}'] || s == ['\U{e3}', '\U{80}', '\U{80}']
      || (s[..2] == ['\U{e2}', '\U{80}']
          && ('\U{80}' <= s[2] <= '\U{8a}' || s[2] == '\U{a8}' || s[2] == '\U{a9}' || s[2] == '\U{af}'))
    case _ => false
  }

  /** Length of the white space character at the front, or 0. */
  function SpaceAhead(s: string): (n: nat)
    ensures n <= |s| && (n > 0 ==> IsSpace(s[..n]))
  {
    if |s| >= 1 && IsSpace(s[..1]) then 1
    else if |s| >= 2 && IsSpace(s[..2]) then 2
    else if |s| >= 3 && IsSpace(s[..3]) then 3
    else 0
  }

  /** Length of the white space character at the end, or 0. */
  function SpaceBehind(s: string): (n: nat)
    ensures n <= |s| && (n > 0 ==> IsSpace(s[|s| - n..]))
  {
    if |s| >= 1 && IsSpace(s[|s| - 1..]) then 1
    else if |s| >= 2 && IsSpace(s[|s| - 2..]) then 2
    else if |s| >= 3 && IsSpace(s[|s| - 3..]) then 3
    else 0
  }

  function Trim(s: string): (t: string)
    ensures SpaceAhead(t) == 0 && SpaceBehind(t) == 0
  {
    if SpaceAhead(s) > 0 then Trim(s[SpaceAhead(s)..])
    else if SpaceBehind(s) > 0 then Trim(s[..|s| - SpaceBehind(s)])
    else s
  }

  /** The pieces of `s` between occurrences of `separator`; always at least one piece. */
  function Split(s: string, separator: char): (pieces: seq<string>)
    ensures |pieces| >= 1
  {
    if s == "" then [""]
    else
      var rest := Split(s[1..], separator);
      if s[0] == separator then [""] + rest
      else [[s[0]] + rest[0]] + rest[1..]
  }

  function Join(pieces: seq<string>, separator: string): string {
    if pieces == [] then ""
    else if |pieces| == 1 then pieces[0]
    else pieces[0] + separator + Join(pieces[1..], separator)
  }

  /** A separator in front opens a new, empty piece. */
  lemma JoinEmptyFirst(rest: seq<string>, separator: string)
    requires rest != []
    ensures Join([""] + rest, separator) == separator + Join(rest, separator)
  {
    assert ([""] + rest)[1..] == rest;
  }

  /** Any other character in front belongs to the first piece. */
  lemma JoinLongerFirst(c: char, rest: seq<string>, separator: string)
    requires rest != []
    ensures Join([[c] + rest[0]] + rest[1..], separator) == [c] + Join(rest, separator)
  {
    var pieces := [[c] + rest[0]] + rest[1..];
    if |rest| > 1 {
      assert pieces[1..] == rest[1..];
      assert [c] + rest[0] + separator + Join(rest[1..], separator) == [c] + (rest[0] + separator + Join(rest[1..], separator));
    }
  }

  lemma {:induction false} JoinSplit(s: string, separator: char)
    ensures Join(Split(s, separator), [separator]) == s
  {
    if s != "" {
      JoinSplit(s[1..], separator);
      assert s == [s[0]] + s[1..];
      var rest := Split(s[1..], separator);
      hide Join;
      if s[0] == separator {
        JoinEmptyFirst(rest, [separator]);
      } else {
        JoinLongerFirst(s[0], rest, [separator]);
      }
    }
  }

  lemma FirstPieceGrows(c: char, front: seq<string>, back: seq<string>)
    requires front != []
    ensures [""] + (front + back) == ([""] + front) + back
    ensures [[c] + (front + back)[0]] + (front + back)[1..] == ([[c] + front[0]] + front[1..]) + back
  {
    assert (front + back)[1..] == front[1..] + back;
  }

  lemma SplitStep(s: string, separator: char)
    requires s != ""
    ensures var rest := Split(s[1..], separator);
            Split(s, separator) == if s[0] == separator then [""] + rest else [[s[0]] + rest[0]] + rest[1..]
  {
  }

  lemma {:induction false} SplitAtSeparator(x: string, y: string, separator: char)
    ensures Split(x + [separator] + y, separator) == Split(x, separator) + Split(y, separator)
  {
    var s := x + [separator] + y;
    if x == "" {
      assert s[1..] == y;
    } else {
      assert s[1..] == x[1..] + [separator] + y && s[0] == x[0];
      SplitAtSeparator(x[1..], y, separator);
      SplitStep(x, separator);
      SplitStep(s, separator);
      hide Split;
      FirstPieceGrows(x[0], Split(x[1..], separator), Split(y, separator));
    }
  }

  lemma {:induction false} JoinAppend(xs: seq<string>, ys: seq<string>, separator: string)
    requires |xs| >= 1 && |ys| >= 1
    ensures Join(xs + ys, separator) == Join(xs, separator) + separator + Join(ys, separator)
  {
    if |xs| == 1 {
      assert (xs + ys)[1..] == ys;
    } else {
      assert (xs + ys)[1..] == xs[1..] + ys;
      JoinAppend(xs[1..], ys, separator);
    }
  }

  /** `long` carries the labels of `short`, preceded by at least one more label. */
  ghost predicate ProperLabelSuffix(long: seq<string>, short: seq<string>) {
    |short| < |long| && long[|long| - |short|..] == short
  }

  /** `long` carries the pieces of `short`, followed by at least one more piece. */
  ghost predicate ProperPiecePrefix(long: seq<string>, short: seq<string>) {
    |short| < |long| && long[..|short|] == short
  }

  /** Byte prefixes that end at a separator are exactly the piecewise prefixes. */
  lemma PrefixIsPiecePrefix(s: string, front: string, separator: char)
    ensures StartsWith(s, front + [separator]) <==> ProperPiecePrefix(Split(s, separator), Split(front, separator))
  {
    hide Split, Join;
    var long, short := Split(s, separator), Split(front, separator);
    if StartsWith(s, front + [separator]) {
      var back := s[|front| + 1..];
      assert s == front + [separator] + back;
      SplitAtSeparator(front, back, separator);
    }
    if ProperPiecePrefix(long, short) {
      var rest := long[|short|..];
      assert long == short + rest;
      JoinSplit(s, separator);
      JoinSplit(front, separator);
      JoinAppend(short, rest, [separator]);
      assert s == front + [separator] + Join(rest, [separator]);
    }
  }

  lemma {:induction false} SplitNothing(s: string, separator: char)
    requires separator !in s
    ensures Split(s, separator) == [s]
  {
    if s != "" {
      SplitNothing(s[1..], separator);
      assert [s[0]] + s[1..] == s;
    }
  }

  lemma DottedSuffixSplits(name: string, suffix: string)
    requires EndsWith(name, "." + suffix)
    ensures ProperLabelSuffix(Split(name, '.'), Split(suffix, '.'))
  {
    hide Join;
    var x := name[..|name| - |suffix| - 1];
    assert name == x + name[|name| - |suffix| - 1..];
    assert name == x + ['.'] + suffix;
    SplitAtSeparator(x, suffix, '.');
  }

  lemma LabelSuffixJoins(name: string, suffix: string)
    requires ProperLabelSuffix(Split(name, '.'), Split(suffix, '.'))
    ensures EndsWith(name, "." + suffix)
  {
    hide Split, Join;
    var long, short := Split(name, '.'), Split(suffix, '.');
    var front := long[..|long| - |short|];
    assert long == front + short;
    JoinSplit(name, '.');
    JoinSplit(suffix, '.');
    JoinAppend(front, short, ['.']);
    assert name == Join(front, ['.']) + (['.'] + suffix);
  }

  /** Byte arithmetic on dotted names decides exactly the label-suffix relation. */
  lemma DottedSuffixIsLabelSuffix(name: string, suffix: string)
    ensures EndsWith(name, "." + suffix) <==> ProperLabelSuffix(Split(name, '.'), Split(suffix, '.'))
  {
    if EndsWith(name, "." + suffix) {
      DottedSuffixSplits(name, suffix);
    } else if ProperLabelSuffix(Split(name, '.'), Split(suffix, '.')) {
      LabelSuffixJoins(name, suffix);
    }
  }
}
