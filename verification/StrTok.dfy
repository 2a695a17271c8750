/** strtok (util/string.c): it cuts a string in place and keeps its cursor between calls. */
module StrTok {

  const NUL: char := '\0'

  /** The C string that starts at a position of a buffer. */
  function CString(s: string): (r: string)
    ensures |r| <= |s| && r == s[..|r|] && NUL !in r && (|r| < |s| ==> s[|r|] == NUL)
  {
    if s == "" || s[0] == NUL then "" else [s[0]] + CString(s[1..])
  }

  lemma {:induction false} CStringIs(s: string, r: string)
    requires |r| <= |s| && r == s[..|r|] && NUL !in r && (|r| < |s| ==> s[|r|] == NUL)
    ensures CString(s) == r
  {
    if r != "" {
      assert r[1..] == s[1..][..|r| - 1];
      CStringIs(s[1..], r[1..]);
    }
  }

  /** How many delimiters a string starts with. */
  function Skip(s: string, delim: string): (n: nat)
    ensures n <= |s| && (n < |s| ==> s[n] !in delim) && forall i :: 0 <= i < n ==> s[i] in delim
  {
    if s == "" || s[0] !in delim then 0 else 1 + Skip(s[1..], delim)
  }

  /** How long the word at the front of a string is. */
  function Word(s: string, delim: string): (n: nat)
    ensures n <= |s| && (n < |s| ==> s[n] in delim) && forall i :: 0 <= i < n ==> s[i] !in delim
  {
    if s == "" || s[0] in delim then 0 else 1 + Word(s[1..], delim)
  }

  /** The words of a string: what repeated calls return. */
  function Tokens(s: string, delim: string): seq<string>
    decreases |s|
  {
    var n := Skip(s, delim);
    var rest := s[n..];
    if rest == "" then [] else [rest[..Word(rest, delim)]] + Tokens(rest[Word(rest, delim)..], delim)
  }

  lemma SkipIs(s: string, delim: string, n: nat)
    requires n <= |s| && (n < |s| ==> s[n] !in delim) && forall i :: 0 <= i < n ==> s[i] in delim
    ensures Skip(s, delim) == n
  {
  }

  lemma WordIs(s: string, delim: string, n: nat)
    requires n <= |s| && (n < |s| ==> s[n] in delim) && forall i :: 0 <= i < n ==> s[i] !in delim
    ensures Word(s, delim) == n
  {
  }

  /** A leading delimiter does not matter. */
  lemma TokensSkipOne(s: string, delim: string)
    requires s != "" && s[0] in delim
    ensures Tokens(s, delim) == Tokens(s[1..], delim)
  {
    var n := Skip(s[1..], delim);
    assert s[1 + n..] == s[1..][n..];
  }

  /** One word cut off: `n` delimiters, then a word of length `w`. */
  lemma TokensStep(s: string, delim: string, n: nat, w: nat)
    requires n + w <= |s| && (forall i :: 0 <= i < n ==> s[i] in delim)
    requires (forall i :: n <= i < n + w ==> s[i] !in delim) && (n + w < |s| ==> s[n + w] in delim)
    requires w > 0
    ensures Tokens(s, delim) == [s[n..n + w]] + (if n + w < |s| then Tokens(s[n + w + 1..], delim) else [])
  {
    SkipIs(s, delim, n);
    var rest := s[n..];
    WordIs(rest, delim, w);
    assert rest[..w] == s[n..n + w] && rest[w..] == s[n + w..];
    if n + w < |s| {
      TokensSkipOne(s[n + w..], delim);
      assert s[n + w..][1..] == s[n + w + 1..];
    }
  }

  /** What is still to be cut, with the cursor at `current`. */
  ghost function RestOf(text: string, current: int): string {
    if 0 <= current < |text| then CString(text[current..]) else ""
  }

  /** What a call returns on the text `rest`: no word and the end, or the position of the next word. */
  ghost predicate Cut(text: string, current: int, start: int, delim: string, rest: string) {
    if start < 0 then Tokens(rest, delim) == [] && current < 0
    else
      && start < |text| && CString(text[start..]) != ""
      && Tokens(rest, delim) == [CString(text[start..])] + Tokens(RestOf(text, current), delim)
  }

  class Tokenizer {
    /** the string of the last first call, and the position in it, -1 for NULL */
    var text: array<char>
    var current: int

    ghost predicate Valid()
      reads this, text
    {
      current < text.Length && (current >= 0 ==> NUL in text[..][current..])
    }

    constructor ()
      ensures Valid() && current == -1 && fresh(text)
    {
      text := new char[0];
      current := -1;
    }

    /** strtok with a string: the first word. */
    method Begin(str: array<char>, delim: string) returns (start: int)
      requires NUL in str[..] && NUL !in delim
      modifies this, str
      ensures Valid() && text == str && Cut(str[..], current, start, delim, CString(old(str[..])))
    {
      text, current := str, 0;
      assert str[..][0..] == str[..];
      start := Next(delim);
    }

    /** strtok with NULL: the next word. Words returned before are left alone. */
    method Next(delim: string) returns (start: int)
      requires Valid() && NUL !in delim
      modifies this`current, text
      ensures Valid() && text == old(text) && Cut(text[..], current, start, delim, RestOf(old(text[..]), old(current)))
      ensures old(current) < 0 ==> start < 0
      ensures start >= 0 ==> old(current) <= start && text[..start] == old(text[..])[..start]
    {
      hide CString, Tokens, Cut;
      if current < 0 {
        NoWord(text[..], current, delim);
        return -1;
      }
      RestAt(text[..], current);
      ghost var z := current + |CString(text[..][current..])|;
      start := SkipDelimiters(current, delim, z);
      if text[start] == NUL {
        AllSkipped(text[..], current, delim);
        current := -1;
        return -1;
      }
      var end := FindEnd(start, delim, z);
      NextWord(text[..], current, start, end, z, delim);
      if text[end] != NUL {
        text[end] := NUL;
        assert text[..] == old(text[..])[end := NUL];
        current := end + 1;
      } else {
        current := -1;
      }
    }

    method SkipDelimiters(from: nat, delim: string, ghost z: nat) returns (start: nat)
      requires from <= z < text.Length && text[z] == NUL && forall i :: from <= i < z ==> text[i] != NUL
      ensures from <= start <= z && (start < z ==> text[start] !in delim) && forall i :: from <= i < start ==>
          text[i] in delim
    {
      start := from;
      while text[start] != NUL && text[start] in delim
        invariant from <= start <= z && forall i :: from <= i < start ==> text[i] in delim
        decreases z - start
      {
        start := start + 1;
      }
    }

    method FindEnd(start: nat, delim: string, ghost z: nat) returns (end: nat)
      requires start <= z < text.Length && text[z] == NUL && forall i :: start <= i < z ==> text[i] != NUL
      ensures start <= end <= z && (end < z ==> text[end] in delim) && forall i :: start <= i < end ==>
          text[i] !in delim
    {
      end := start;
      while text[end] != NUL && text[end] !in delim
        invariant start <= end <= z && forall i :: start <= i < end ==> text[i] !in delim
        decreases z - end
      {
        end := end + 1;
      }
    }
  }

  lemma NoWord(text: string, current: int, delim: string)
    requires current < 0
    ensures Cut(text, current, -1, delim, RestOf(text, current))
  {
  }

  lemma AllSkipped(text: string, c: nat, delim: string)
    requires c < |text| && NUL in text[c..]
    requires forall i :: c <= i < c + |CString(text[c..])| ==> text[i] in delim
    ensures Cut(text, -1, -1, delim, RestOf(text, c))
  {
    SkipIs(CString(text[c..]), delim, |CString(text[c..])|);
  }

  /** The tokens of a piece of text, the first one taken off. */
  lemma TokensMiddle(text: string, c: nat, start: nat, end: nat, z: nat, delim: string)
    requires c <= start < end < z <= |text| && text[end] in delim
    requires (forall i :: c <= i < start ==> text[i] in delim) && (forall i :: start <= i < end ==> text[i] !in delim)
    ensures Tokens(text[c..z], delim) == [text[start..end]] + Tokens(text[end + 1..z], delim)
  {
    hide Tokens;
    var rest := text[c..z];
    assert forall i :: 0 <= i < |rest| ==> rest[i] == text[c + i];
    TokensStep(rest, delim, start - c, end - start);
    assert rest[start - c..start - c + (end - start)] == text[start..end];
    assert rest[end - c + 1..] == text[end + 1..z];
  }

  /** The cut at the end of the string. */
  lemma LastWord(text: string, c: nat, start: nat, z: nat, delim: string)
    requires c <= start < z < |text| && NUL in text[c..] && z == c + |CString(text[c..])|
    requires (forall i :: c <= i < start ==> text[i] in delim) && (forall i :: start <= i < z ==> text[i] !in delim)
    ensures text[z] == NUL && Cut(text, -1, start, delim, RestOf(text, c))
  {
    hide CString, Tokens;
    RestAt(text, c);
    var rest := CString(text[c..]);
    TokensStep(rest, delim, start - c, z - start);
    CutAt(text, c, start, z, z);
    assert rest[start - c..z - c] == text[start..z];
    NoTokens(delim);
  }

  /** After the cut at `end`. */
  lemma NextWord(text: string, c: nat, start: nat, end: nat, z: nat, delim: string)
    requires c <= start < end <= z < |text| && NUL in text[c..] && z == c + |CString(text[c..])|
    requires (forall i :: c <= i < start ==> text[i] in delim) && (forall i :: start <= i < end ==> text[i] !in delim)
    requires end < z ==> text[end] in delim
    ensures end < z ==> text[end] != NUL && NUL in text[end := NUL][end + 1..]
    ensures end == z ==> text[end] == NUL
    ensures end < z ==> Cut(text[end := NUL], end + 1, start, delim, RestOf(text, c))
    ensures end == z ==> Cut(text, -1, start, delim, RestOf(text, c))
  {
    hide CString, Tokens;
    if end == z {
      LastWord(text, c, start, z, delim);
    } else {
      RestAt(text, c);
      TokensMiddle(text, c, start, end, z, delim);
      CutAt(text, c, start, end, z);
    }
  }

  lemma NoTokens(delim: string)
    ensures Tokens("", delim) == []
  {
  }

  /** The string at `c` ends at the first NUL. */
  lemma RestAt(text: string, c: nat)
    requires c < |text| && NUL in text[c..]
    ensures var z := c + |CString(text[c..])|;
            z < |text| && text[z] == NUL && CString(text[c..]) == text[c..z] && forall i :: c <= i < z ==>
                text[i] != NUL
  {
    var s := text[c..];
    var r := CString(s);
    assert |r| == |s| ==> r == s;
    assert text[c..c + |r|] == s[..|r|];
    forall i | c <= i < c + |r|
      ensures text[i] != NUL
    {
      assert text[i] == r[i - c] && r[i - c] in r;
    }
  }

  /** The word and the rest after the cut at `end`. */
  lemma CutAt(text: string, c: nat, start: nat, end: nat, z: nat)
    requires c <= start < end <= z < |text| && text[z] == NUL && forall i :: c <= i < z ==> text[i] != NUL
    ensures var t := if end < z then text[end := NUL] else text;
            CString(t[start..]) == text[start..end]
                && (end < z ==> NUL in t[end + 1..] && CString(t[end + 1..]) == text[end + 1..z])
  {
    var t := if end < z then text[end := NUL] else text;
    assert t[start..end] == text[start..end];
    CStringIs(t[start..], text[start..end]);
    if end < z {
      assert t[end + 1..z] == text[end + 1..z];
      assert t[end + 1..][z - end - 1] == NUL;
      CStringIs(t[end + 1..], text[end + 1..z]);
    }
  }
}
