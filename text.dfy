/** The string operations `extractTitleFromContent` and `promptForTitle` rely
    on: `String.prototype.trim`, `split('\n')` and `substring(0, n)`. A
    `char` is a Unicode scalar value, so lengths and cuts count characters
    where JavaScript counts UTF-16 code units; the two agree on text inside
    the Basic Multilingual Plane. */
module Text {

  /** The characters `trim` removes: ECMAScript's WhiteSpace (tab, vertical
      tab, form feed, space, no-break space, the byte order mark and the
      Unicode space separators) and LineTerminator (line feed, carriage return,
      line and paragraph separators). */
  const SpaceChars: set<char> := {
    '\t', '\U{000B}', '\U{000C}', ' ', '\U{00A0}', '\U{FEFF}', '\U{1680}',
    '\U{2000}', '\U{2001}', '\U{2002}', '\U{2003}', '\U{2004}', '\U{2005}',
    '\U{2006}', '\U{2007}', '\U{2008}', '\U{2009}', '\U{200A}',
    '\U{202F}', '\U{205F}', '\U{3000}',
    '\n', '\r', '\U{2028}', '\U{2029}'
  }

  predicate IsSpace(c: char) {
    c in SpaceChars
  }

  predicate AllSpace(s: string) {
    forall i :: 0 <= i < |s| ==> IsSpace(s[i])
  }

  lemma AllSpaceConcat(a: string, b: string)
    requires AllSpace(a) && AllSpace(b)
    ensures AllSpace(a + b)
  {
    forall i | 0 <= i < |a + b|
      ensures IsSpace((a + b)[i])
    {
      if i < |a| {
        assert (a + b)[i] == a[i];
      } else {
        assert (a + b)[i] == b[i - |a|];
      }
    }
  }

  /** `trimStart`: a suffix of the text, what is left after dropping the
      leading spaces (see `TrimStartSpec`). */
  function TrimStart(s: string): (r: string)
    ensures |r| <= |s| && r == s[|s| - |r|..]
  {
    if s != [] && IsSpace(s[0]) then TrimStart(s[1..]) else s
  }

  /** `trimStart` drops only spaces and stops at the first other character. */
  lemma {:induction false} TrimStartSpec(s: string)
    ensures AllSpace(s[..|s| - |TrimStart(s)|])
    ensures TrimStart(s) == [] || !IsSpace(TrimStart(s)[0])
  {
    if s != [] && IsSpace(s[0]) {
      var r := TrimStart(s[1..]);
      TrimStartSpec(s[1..]);
      assert TrimStart(s) == r;
      AllSpaceConcat([s[0]], s[1..][..|s| - 1 - |r|]);
      assert s[..|s| - |r|] == [s[0]] + s[1..][..|s| - 1 - |r|];
    } else {
      assert s[..|s| - |TrimStart(s)|] == [];
    }
  }

  /** `trimEnd`: a prefix of the text, what is left after dropping the
      trailing spaces (see `TrimEndSpec`). */
  function TrimEnd(s: string): (r: string)
    ensures |r| <= |s| && r == s[..|r|]
  {
    if s != [] && IsSpace(s[|s| - 1]) then TrimEnd(s[..|s| - 1]) else s
  }

  /** `trimEnd` drops only spaces and stops at the last other character. */
  lemma {:induction false} TrimEndSpec(s: string)
    ensures AllSpace(s[|TrimEnd(s)|..])
    ensures TrimEnd(s) == [] || !IsSpace(TrimEnd(s)[|TrimEnd(s)| - 1])
  {
    if s != [] && IsSpace(s[|s| - 1]) {
      var r := TrimEnd(s[..|s| - 1]);
      TrimEndSpec(s[..|s| - 1]);
      assert TrimEnd(s) == r;
      AllSpaceConcat(s[..|s| - 1][|r|..], [s[|s| - 1]]);
      assert s[|r|..] == s[..|s| - 1][|r|..] + [s[|s| - 1]];
    } else {
      assert s[|TrimEnd(s)|..] == [];
    }
  }

  function Trim(s: string): string {
    TrimEnd(TrimStart(s))
  }

  predicate IsTrimmed(s: string) {
    s == [] || (!IsSpace(s[0]) && !IsSpace(s[|s| - 1]))
  }

  /** `trim` keeps no space at either end of what it returns. */
  lemma TrimEnds(s: string)
    ensures IsTrimmed(Trim(s))
  {
    var a := TrimStart(s);
    var r := TrimEnd(a);
    TrimStartSpec(s);
    TrimEndSpec(a);
    if r != [] {
      assert r[0] == a[0];
    }
  }

  /** `trim` returns the empty string exactly for an all-space string. */
  lemma TrimBlank(s: string)
    ensures Trim(s) == [] <==> AllSpace(s)
  {
    var a := TrimStart(s);
    var r := TrimEnd(a);
    TrimStartSpec(s);
    TrimEndSpec(a);
    if r != [] {
      assert r[0] == a[0] == s[|s| - |a|];
    } else {
      assert a[|r|..] == a;
      assert s == s[..|s| - |a|] + a;
      AllSpaceConcat(s[..|s| - |a|], a);
    }
  }

  /** `trim` leaves neither leading nor trailing spaces, drops only spaces,
      and is empty exactly for an all-space string. */
  lemma TrimSpec(s: string)
    ensures IsTrimmed(Trim(s))
    ensures |Trim(s)| <= |s|
    ensures Trim(s) == [] <==> AllSpace(s)
  {
    TrimEnds(s);
    TrimBlank(s);
  }

  /** A trimmed string is its own trim, so trimming twice is trimming once. */
  lemma TrimTrimmed(s: string)
    requires IsTrimmed(s)
    ensures Trim(s) == s
  {
  }

  lemma TrimIdempotent(s: string)
    ensures Trim(Trim(s)) == Trim(s)
  {
    TrimSpec(s);
    TrimTrimmed(Trim(s));
  }

  /** `s.substring(0, n)` for `n >= 0`. */
  function Prefix(s: string, n: nat): (r: string)
    ensures |r| == if |s| <= n then |s| else n
    ensures r == s[..|r|]
  {
    if |s| <= n then s else s[..n]
  }

  /** `s.split('\n')`: the pieces between line feeds, one more than there
      are line feeds. */
  function Lines(s: string): (ls: seq<string>)
    ensures |ls| >= 1
    ensures forall i :: 0 <= i < |ls| ==> '\n' !in ls[i]
  {
    if s == [] then [""]
    else
      var rest := Lines(s[1..]);
      if s[0] == '\n' then [""] + rest
      else [[s[0]] + rest[0]] + rest[1..]
  }

  /** `lines.join('\n')`. */
  function JoinLines(ls: seq<string>): string
    requires |ls| >= 1
  {
    if |ls| == 1 then ls[0] else ls[0] + "\n" + JoinLines(ls[1..])
  }

  /** A character put in front of the first piece ends up in front of the
      joined text. */
  lemma {:induction false} JoinLinesCons(c: char, ls: seq<string>)
    requires |ls| >= 1
    ensures JoinLines([[c] + ls[0]] + ls[1..]) == [c] + JoinLines(ls)
  {
    var ms := [[c] + ls[0]] + ls[1..];
    assert |ms| == |ls| && ms[0] == [c] + ls[0];
    if |ls| > 1 {
      assert ms[1..] == ls[1..];
      var tail := JoinLines(ls[1..]);
      assert JoinLines(ms) == ([c] + ls[0]) + "\n" + tail;
      assert JoinLines(ls) == ls[0] + "\n" + tail;
    }
  }

  /** An empty first piece puts a line feed in front of the joined text. */
  lemma JoinLinesNewline(ls: seq<string>)
    requires |ls| >= 1
    ensures JoinLines([""] + ls) == "\n" + JoinLines(ls)
  {
    assert ([""] + ls)[1..] == ls;
  }

  /** Splitting at line feeds loses nothing: joining the pieces gives the
      text back. */
  lemma {:induction false} LinesJoin(s: string)
    ensures JoinLines(Lines(s)) == s
  {
    if s != [] {
      var rest := Lines(s[1..]);
      LinesJoin(s[1..]);
      if s[0] == '\n' {
        assert Lines(s) == [""] + rest;
        JoinLinesNewline(rest);
      } else {
        assert Lines(s) == [[s[0]] + rest[0]] + rest[1..];
        JoinLinesCons(s[0], rest);
      }
      assert s == [s[0]] + s[1..];
    }
  }
}
