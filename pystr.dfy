/**
  The Python string operations the city handler relies on: `str.title()`
  and `sep.join(parts)`.  `Split`, Python's `s.split(sep)`, is not called by
  the handler; it is defined here, on its own, only so that a property of
  `join` can be stated: `SplitJoin` proves that splitting undoes joining
  when no part holds the separator's first character.

  `str.title()` is modelled on ASCII: the cased characters are the letters
  A-Z and a-z; every other character is uncased and left as it is.  A cased
  character that follows a cased character is lower-cased, any other cased
  character is upper-cased.
 */
module PyStr {

  predicate IsUpper(c: char) { 'A' <= c <= 'Z' }

  predicate IsLower(c: char) { 'a' <= c <= 'z' }

  predicate IsCased(c: char) { IsUpper(c) || IsLower(c) }

  function ToUpper(c: char): (u: char)
    ensures IsCased(c) ==> IsUpper(u)
    ensures !IsLower(c) ==> u == c
  {
    if IsLower(c) then (c as int - 32) as char else c
  }

  function ToLower(c: char): (l: char)
    ensures IsCased(c) ==> IsLower(l)
    ensures !IsUpper(c) ==> l == c
  {
    if IsUpper(c) then (c as int + 32) as char else c
  }

  /** What `str.title()` makes of the character `c` at a position whose
      predecessor is cased exactly when `prevCased` holds. */
  function TitleChar(c: char, prevCased: bool): char
  {
    if !IsCased(c) then c
    else if prevCased then ToLower(c)
    else ToUpper(c)
  }

  /** `str.title()` on the rest of a string, given whether the character
      before it was cased.  The result keeps the length and keeps, position
      by position, which characters are cased. */
  function TitleFrom(s: string, prevCased: bool): (r: string)
    ensures |r| == |s|
    ensures forall i :: 0 <= i < |s| ==> IsCased(r[i]) == IsCased(s[i])
    decreases |s|
  {
    if s == [] then []
    else [TitleChar(s[0], prevCased)] + TitleFrom(s[1..], IsCased(s[0]))
  }

  /** Python's `s.title()`: position by position, it agrees with the
      reference reading `TitleAt` below. */
  function Title(s: string): (r: string)
    ensures |r| == |s|
    ensures forall i :: 0 <= i < |s| ==> r[i] == TitleAt(s, i)
  {
    assert forall i :: 0 <= i < |s| ==> TitleFrom(s, false)[i] == TitleAt(s, i) by {
      forall i | 0 <= i < |s|
        ensures TitleFrom(s, false)[i] == TitleAt(s, i)
      {
        TitleFromAt(s, false, i);
      }
    }
    TitleFrom(s, false)
  }

  /** The reference reading of `str.title()`, one position at a time: a
      cased character starts a word (and is upper-cased) exactly when it is
      first or follows an uncased character. */
  predicate StartsWord(s: string, i: int)
    requires 0 <= i < |s|
  {
    i == 0 || !IsCased(s[i - 1])
  }

  function TitleAt(s: string, i: int): char
    requires 0 <= i < |s|
  {
    if !IsCased(s[i]) then s[i]
    else if StartsWord(s, i) then ToUpper(s[i])
    else ToLower(s[i])
  }

  lemma {:induction false} TitleFromAt(s: string, prevCased: bool, i: int)
    requires 0 <= i < |s|
    ensures TitleFrom(s, prevCased)[i] ==
      (if i == 0 then TitleChar(s[0], prevCased) else TitleAt(s, i))
    decreases |s|
  {
    if i > 0 {
      var t := s[1..];
      assert TitleFrom(s, prevCased)[i] == TitleFrom(t, IsCased(s[0]))[i - 1];
      TitleFromAt(t, IsCased(s[0]), i - 1);
      assert t[i - 1] == s[i];
      if i > 1 {
        assert t[i - 2] == s[i - 1];
        assert TitleAt(t, i - 1) == TitleAt(s, i);
      }
    }
  }

  /** Title-casing twice is title-casing once. */
  lemma TitleIdempotent(s: string)
    ensures Title(Title(s)) == Title(s)
  {
    var t := Title(s);
    forall i | 0 <= i < |s|
      ensures Title(t)[i] == t[i]
    {
      assert StartsWord(t, i) == StartsWord(s, i);
    }
  }

  /** A single word that is lower-case after its first letter comes back
      with only that letter upper-cased. */
  lemma TitleOfWord(w: string)
    requires |w| >= 1 && IsCased(w[0])
    requires forall i :: 1 <= i < |w| ==> IsLower(w[i])
    ensures Title(w) == [ToUpper(w[0])] + w[1..]
  {
    var u := [ToUpper(w[0])] + w[1..];
    forall i | 0 <= i < |w|
      ensures Title(w)[i] == u[i]
    {
    }
  }

  /** A title-cased string holds an uncased character only where the input
      held it, so title-casing never introduces a separator. */
  lemma TitleKeepsUncased(s: string, c: char)
    requires !IsCased(c)
    ensures c in Title(s) <==> c in s
  {
    var t := Title(s);
    if c in t {
      var i :| 0 <= i < |t| && t[i] == c;
      assert s[i] == c;
    }
    if c in s {
      var i :| 0 <= i < |s| && s[i] == c;
      assert t[i] == c;
    }
  }

  /** The total length of `parts`. */
  function TotalLength(parts: seq<string>): nat
    decreases |parts|
  {
    if |parts| == 0 then 0 else |parts[0]| + TotalLength(parts[1..])
  }

  /** Python's `sep.join(parts)`: the parts, in order, with one separator
      between each two neighbours and none at either end. */
  function Join(sep: string, parts: seq<string>): (r: string)
    ensures |parts| >= 1 ==> |r| == TotalLength(parts) + (|parts| - 1) * |sep|
    ensures |parts| == 0 ==> r == ""
    decreases |parts|
  {
    if |parts| == 0 then ""
    else if |parts| == 1 then parts[0]
    else parts[0] + sep + Join(sep, parts[1..])
  }

  lemma JoinPair(sep: string, a: string, b: string)
    ensures Join(sep, [a, b]) == a + sep + b
  {
    assert [a, b][1..] == [b];
  }

  /** Python's `s.split(sep)` for a non-empty separator: the pieces between
      the leftmost non-overlapping occurrences of `sep`.  There is always at
      least one piece. */
  function Split(sep: string, s: string): (pieces: seq<string>)
    requires sep != ""
    ensures |pieces| >= 1
    decreases |s|
  {
    if |s| < |sep| then [s]
    else if s[..|sep|] == sep then [""] + Split(sep, s[|sep|..])
    else
      var rest := Split(sep, s[1..]);
      [[s[0]] + rest[0]] + rest[1..]
  }

  /** A piece that cannot hold the separator's first character is split off
      whole: splitting `p + t` glues `p` to the first piece of `t`. */
  lemma {:induction false} SplitAfterPiece(sep: string, p: string, t: string)
    requires sep != ""
    requires sep[0] !in p
    ensures Split(sep, p + t) == [p + Split(sep, t)[0]] + Split(sep, t)[1..]
    decreases |p|
  {
    if p == [] {
      var pieces := Split(sep, t);
      assert p + t == t && p + pieces[0] == pieces[0];
      assert [pieces[0]] + pieces[1..] == pieces;
    } else {
      var s := p + t;
      if |s| < |sep| {
        assert Split(sep, t) == [t];
      } else {
        assert s[0] == p[0];
        assert s[..|sep|][0] == p[0];
        assert s[1..] == p[1..] + t;
        SplitAfterPiece(sep, p[1..], t);
        assert [s[0]] + (p[1..] + Split(sep, t)[0]) == p + Split(sep, t)[0];
      }
    }
  }

  /** `split` undoes `join` when no part holds the separator's first
      character: every part comes back, once, in its place. */
  lemma {:induction false} SplitJoin(sep: string, parts: seq<string>)
    requires sep != "" && |parts| >= 1
    requires forall i :: 0 <= i < |parts| ==> sep[0] !in parts[i]
    ensures Split(sep, Join(sep, parts)) == parts
    decreases |parts|
  {
    if |parts| == 1 {
      SplitAfterPiece(sep, parts[0], "");
      assert parts[0] + "" == parts[0];
    } else {
      var rest := Join(sep, parts[1..]);
      SplitJoin(sep, parts[1..]);
      var t := sep + rest;
      assert t[..|sep|] == sep;
      assert t[|sep|..] == rest;
      assert Split(sep, t) == [""] + parts[1..];
      SplitAfterPiece(sep, parts[0], t);
      assert parts[0] + sep + rest == parts[0] + t;
      assert parts[0] + "" == parts[0];
      assert [parts[0]] + parts[1..] == parts;
    }
  }
}
