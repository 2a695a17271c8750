/** The command line parser of zshell (zshell/parser.c): words are cut out of the line in place, and
    the list of commands is rebuilt over the nodes of the last one. */
module ShellParser {
  import opened Basics
  import opened Chains
  import opened StrTok

  datatype Op = Dead | Exec | Pipeline | Multistart | Multicore

  /** What a word means as a connector; `Exec` for any other word. */
  function KindOf(word: string): Op {
    if word == "&&" then Multicore else if word == "&" then Multistart else if word == "|" then Pipeline else Exec
  }

  function ConnectorOf(kind: Op): seq<string> {
    match kind
    case Multicore => ["&&"]
    case Multistart => ["&"]
    case Pipeline => ["|"]
    case _ => []
  }

  // ---- the grammar ----

  /** One command of a line: its operation, its parameters and the connector behind it. */
  datatype Cmd = Cmd(op: string, paras: seq<string>, kind: Op)

  function Flatten(cmds: seq<Cmd>): seq<string> {
    if cmds == [] then []
    else [cmds[0].op] + cmds[0].paras + ConnectorOf(cmds[0].kind) + Flatten(cmds[1..])
  }

  predicate Plain(words: seq<string>) {
    forall i :: 0 <= i < |words| ==> KindOf(words[i]) == Exec
  }

  /** No parameter is a connector, and a connector stands exactly between two commands. */
  predicate WellFormed(cmds: seq<Cmd>) {
    && cmds != [] && Plain(cmds[0].paras) && cmds[0].kind != Dead
    && if |cmds| == 1 then cmds[0].kind == Exec else cmds[0].kind != Exec && WellFormed(cmds[1..])
  }

  /** The outcome of a line: its commands, or a connector with nothing behind it. */
  datatype Parsed = Good(cmds: seq<Cmd>) | Trailing

  /** How many words come before the next connector. */
  function ParaCount(words: seq<string>): (n: nat)
    ensures n <= |words| && Plain(words[..n]) && (n < |words| ==> KindOf(words[n]) != Exec)
  {
    if words == [] || KindOf(words[0]) != Exec then 0 else
      var n := 1 + ParaCount(words[1..]);
      assert words[..n] == [words[0]] + words[1..][..n - 1];
      n
  }

  lemma {:induction false} ParaCountIs(words: seq<string>, n: nat)
    requires n <= |words| && Plain(words[..n]) && (n < |words| ==> KindOf(words[n]) != Exec)
    ensures ParaCount(words) == n
  {
    if n > 0 {
      assert words[..n][0] == words[0];
      assert words[1..][..n - 1] == words[..n][1..];
      ParaCountIs(words[1..], n - 1);
    }
  }

  function Before(cmds: seq<Cmd>, p: Parsed): Parsed {
    match p
    case Good(rest) => Good(cmds + rest)
    case Trailing => Trailing
  }

  function Parse(words: seq<string>): Parsed
    requires words != []
    decreases |words|
  {
    var n := ParaCount(words[1..]);
    var paras, rest := words[1..][..n], words[1..][n..];
    if rest == [] then Good([Cmd(words[0], paras, Exec)])
    else if |rest| == 1 then Trailing
    else Before([Cmd(words[0], paras, KindOf(rest[0]))], Parse(rest[1..]))
  }

  lemma ParseFront(op: string, paras: seq<string>, rest: seq<string>)
    requires Plain(paras) && (rest != [] ==> KindOf(rest[0]) != Exec)
    ensures Parse([op] + paras + rest) ==
              if rest == [] then Good([Cmd(op, paras, Exec)])
              else if |rest| == 1 then Trailing
              else Before([Cmd(op, paras, KindOf(rest[0]))], Parse(rest[1..]))
  {
    hide KindOf, Before;
    var words := [op] + paras + rest;
    assert words[1..] == paras + rest;
    assert words[1..][..|paras|] == paras && words[1..][|paras|..] == rest;
    ParaCountIs(words[1..], |paras|);
  }

  lemma FlattenFront(c: Cmd, cmds: seq<Cmd>)
    ensures Flatten([c] + cmds) == [c.op] + c.paras + ConnectorOf(c.kind) + Flatten(cmds)
  {
    assert ([c] + cmds)[1..] == cmds;
  }

  lemma WellFormedFront(c: Cmd, cmds: seq<Cmd>)
    requires Plain(c.paras) && c.kind != Dead && c.kind != Exec && WellFormed(cmds)
    ensures WellFormed([c] + cmds)
  {
    assert ([c] + cmds)[1..] == cmds;
  }

  lemma ConnectorWord(word: string)
    ensures KindOf(word) != Exec ==> ConnectorOf(KindOf(word)) == [word]
    ensures KindOf(word) != Dead
  {
  }

  lemma ConnectorKind(kind: Op)
    requires kind != Dead && kind != Exec
    ensures |ConnectorOf(kind)| == 1 && KindOf(ConnectorOf(kind)[0]) == kind
  {
  }

  /** Flattening the commands of a line gives back its words. */
  lemma {:induction false} FlattenOfParse(words: seq<string>)
    requires words != [] && Parse(words).Good?
    ensures WellFormed(Parse(words).cmds) && Flatten(Parse(words).cmds) == words
    decreases |words|
  {
    hide KindOf, ConnectorOf, Flatten, WellFormed, Parse;
    var n := ParaCount(words[1..]);
    var op, paras, rest := words[0], words[1..][..n], words[1..][n..];
    assert words == [op] + paras + rest;
    ParseFront(op, paras, rest);
    if rest == [] {
      LastCommand(op, paras);
      assert words == [op] + paras;
    } else {
      FlattenOfParse(rest[1..]);
      var c := Cmd(op, paras, KindOf(rest[0]));
      ConnectorWord(rest[0]);
      FlattenFront(c, Parse(rest[1..]).cmds);
      WellFormedFront(c, Parse(rest[1..]).cmds);
      assert rest == [rest[0]] + rest[1..];
    }
  }

  lemma LastCommand(op: string, paras: seq<string>)
    requires Plain(paras)
    ensures var cmds := [Cmd(op, paras, Exec)]; WellFormed(cmds) && Flatten(cmds) == [op] + paras
  {
    assert Flatten([]) == [];
    assert [op] + paras + [] + [] == [op] + paras;
  }

  /** Every well-formed list of commands is the parse of its words, and of no others. */
  lemma {:induction false} ParseOfFlatten(cmds: seq<Cmd>)
    requires WellFormed(cmds)
    ensures Flatten(cmds) != [] && Parse(Flatten(cmds)) == Good(cmds)
    decreases |cmds|
  {
    hide KindOf, ConnectorOf, Flatten, Parse;
    var c := cmds[0];
    if |cmds| == 1 {
      LastCommand(c.op, c.paras);
      ParseFront(c.op, c.paras, []);
      assert cmds == [Cmd(c.op, c.paras, Exec)];
      assert [c.op] + c.paras + [] == [c.op] + c.paras;
    } else {
      var rest := ConnectorOf(c.kind) + Flatten(cmds[1..]);
      ParseOfFlatten(cmds[1..]);
      ConnectorKind(c.kind);
      ParseFront(c.op, c.paras, rest);
      FlattenFront(c, cmds[1..]);
      assert cmds == [c] + cmds[1..];
      assert rest[1..] == Flatten(cmds[1..]);
      assert [c.op] + c.paras + rest == [c.op] + c.paras + ConnectorOf(c.kind) + Flatten(cmds[1..]);
    }
  }

  // ---- words in the line ----

  /** The string at position `q`. */
  function Str(text: string, q: nat): string
    requires q <= |text|
  {
    CString(text[q..])
  }

  /** The position behind the terminator of the string at `q`. */
  function Behind(text: string, q: nat): nat
    requires q <= |text|
  {
    q + |Str(text, q)| + 1
  }

  /** The text from `c` on is still to be cut: it ends in a NUL, and a second one follows. */
  ghost predicate Unread(text: string, c: nat) {
    && c < |text| && NUL in text[c..]
    && (text[c] != NUL ==> Behind(text, c) < |text| && text[Behind(text, c)] == NUL)
  }

  ghost function Words(text: string, c: nat): seq<string>
    requires c <= |text|
  {
    Tokens(Str(text, c), " ")
  }

  /** `words` are the word at `t` and the words behind it; -1 stands for no word. */
  ghost predicate AtWord(text: string, t: int, words: seq<string>) {
    if t < 0 then words == []
    else
      && t < |text| && Behind(text, t) < |text| && Unread(text, Behind(text, t))
      && words == [Str(text, t)] + Words(text, Behind(text, t))
  }

  /** A word found from `start` to `end` in the unread text that ends at `z`, after the cut. */
  lemma WordCut(text: string, c: nat, start: nat, end: nat, z: nat)
    requires Unread(text, c) && z == c + |Str(text, c)| && c <= start < end <= z
    requires (forall i :: c <= i < start ==> text[i] == ' ') && (forall i :: start <= i < end ==> text[i] != ' ')
    requires end < z ==> text[end] == ' '
    ensures z < |text| && text[z] == NUL
    ensures var cut := if end < z then text[end := NUL] else text;
            AtWord(cut, start, Words(text, c)) && Behind(cut, start) == end + 1
  {
    hide Tokens, CString, AtWord;
    RestAt(text, c);
    if end < z {
      MiddleCut(text, c, start, end, z);
    } else {
      EndCut(text, c, start, z);
    }
  }

  lemma MiddleCut(text: string, c: nat, start: nat, end: nat, z: nat)
    requires c <= start < end < z && z + 1 < |text| && text[z] == NUL && text[z + 1] == NUL
    requires (forall i :: c <= i < z ==> text[i] != NUL) && Str(text, c) == text[c..z]
    requires (forall i :: c <= i < start ==> text[i] == ' ') && (forall i :: start <= i < end ==> text[i] != ' ')
    requires text[end] == ' '
    ensures var cut := text[end := NUL]; AtWord(cut, start, Words(text, c)) && Behind(cut, start) == end + 1
  {
    hide Tokens, CString;
    TokensMiddle(text, c, start, end, z, " ");
    CutAt(text, c, start, end, z);
  }

  lemma EndCut(text: string, c: nat, start: nat, z: nat)
    requires c <= start < z && z + 1 < |text| && text[z] == NUL && text[z + 1] == NUL
    requires (forall i :: c <= i < z ==> text[i] != NUL) && Str(text, c) == text[c..z]
    requires (forall i :: c <= i < start ==> text[i] == ' ') && (forall i :: start <= i < z ==> text[i] != ' ')
    ensures AtWord(text, start, Words(text, c)) && Behind(text, start) == z + 1
  {
    hide Tokens, CString;
    var rest := text[c..z];
    TokensStep(rest, " ", start - c, z - start);
    CutAt(text, c, start, z, z);
    assert rest[start - c..z - c] == text[start..z];
    EmptyAt(text, z + 1);
    NoTokens(" ");
  }

  lemma EmptyAt(text: string, c: nat)
    requires c < |text| && text[c] == NUL
    ensures Str(text, c) == "" && NUL in text[c..]
  {
    assert text[c..][0] == NUL;
  }

  /** Only blanks are left. */
  lemma NoWordLeft(text: string, c: nat)
    requires Unread(text, c) && forall i :: c <= i < c + |Str(text, c)| ==> text[i] == ' '
    ensures Words(text, c) == []
  {
    RestAt(text, c);
    SkipIs(Str(text, c), " ", |Str(text, c)|);
  }

  /** Words before the unread text are not touched by later cuts. */
  lemma WordKept(text: string, text': string, q: nat, c: nat)
    requires c <= |text| == |text'| && text[..c] == text'[..c] && q <= |text| && Behind(text, q) <= c
    ensures Str(text', q) == Str(text, q) && Behind(text', q) == Behind(text, q)
  {
    var r := Str(text, q);
    assert forall i :: q <= i < c ==> text'[i] == text[..c][i];
    assert text'[q..][..|r|] == r;
    CStringIs(text'[q..], r);
  }

  /** The two loops of get_token and skip_current_token: the word in the text from `c` on. */
  method Scan(text: array<char>, c: nat) returns (t: int)
    requires Unread(text[..], c)
    modifies text
    ensures AtWord(text[..], t, Words(old(text[..]), c)) && text[..c] == old(text[..c])
    ensures t >= 0 ==> c <= t
  {
    hide Tokens, CString;
    RestAt(text[..], c);
    ghost var z := c + |Str(text[..], c)|;
    var p := c;
    while text[p] != NUL && text[p] == ' '
      invariant c <= p <= z && text[..] == old(text[..]) && forall i :: c <= i < p ==> text[i] == ' '
      decreases z - p
    {
      p := p + 1;
    }
    if text[p] == NUL {
      NoWordLeft(text[..], c);
      return -1;
    }
    var start := p;
    while text[p] != NUL && text[p] != ' '
      invariant start <= p <= z && text[..] == old(text[..]) && forall i :: start <= i < p ==> text[i] != ' '
      decreases z - p
    {
      p := p + 1;
    }
    WordCut(text[..], c, start, p, z);
    if text[p] != NUL {
      text[p] := NUL;
      assert text[..] == old(text[..])[p := NUL];
    }
    t := start;
  }

  /** get_token */
  method GetToken(text: array<char>) returns (t: int)
    requires Unread(text[..], 0)
    modifies text
    ensures AtWord(text[..], t, Words(old(text[..]), 0))
  {
    t := Scan(text, 0);
  }

  /** skip_current_token: the word behind the one at `token`. Everything before it is left alone. */
  method SkipCurrent(text: array<char>, token: nat, ghost words: seq<string>) returns (t: int)
    requires AtWord(text[..], token, words)
    modifies text
    ensures words != [] && AtWord(text[..], t, words[1..])
    ensures text[..Behind(old(text[..]), token)] == old(text[..Behind(text[..], token)])
    ensures t >= 0 ==> Behind(old(text[..]), token) <= t
  {
    hide Tokens, CString;
    var length := StrLen(text, token);
    t := Scan(text, token + length + 1);
    assert words[1..] == Words(old(text[..]), Behind(old(text[..]), token));
  }

  method StrLen(text: array<char>, q: nat) returns (n: nat)
    requires q < text.Length && Behind(text[..], q) <= text.Length
    ensures n == |Str(text[..], q)|
  {
    n := 0;
    while text[q + n] != NUL
      invariant n <= |Str(text[..], q)|
      decreases |Str(text[..], q)| - n
    {
      n := n + 1;
    }
  }

  // ---- stored words ----

  /** Stored positions of words that end before `limit`. */
  ghost predicate Sealed(text: string, ps: seq<int>, limit: nat) {
    limit <= |text| && forall i :: 0 <= i < |ps| ==> 0 <= ps[i] <= |text| && Behind(text, ps[i]) <= limit
  }

  ghost function Strs(text: string, ps: seq<int>): seq<string>
    requires Sealed(text, ps, |text|)
  {
    seq(|ps|, i requires 0 <= i < |ps| => Str(text, ps[i]))
  }

  lemma SealedFurther(text: string, ps: seq<int>, limit: nat, limit': nat)
    requires Sealed(text, ps, limit) && limit <= limit' <= |text|
    ensures Sealed(text, ps, limit')
  {
  }

  lemma StrsKept(text: string, text': string, ps: seq<int>, limit: nat)
    requires Sealed(text, ps, limit) && |text'| == |text| && text[..limit] == text'[..limit]
    ensures Sealed(text, ps, |text|) && Sealed(text', ps, |text'|) && Sealed(text', ps, limit)
    ensures Strs(text', ps) == Strs(text, ps)
  {
    forall i | 0 <= i < |ps|
      ensures Str(text', ps[i]) == Str(text, ps[i]) && Behind(text', ps[i]) == Behind(text, ps[i])
    {
      WordKept(text, text', ps[i], limit);
    }
  }

  /** The word at `t` is stored, and the next one is found. */
  lemma StoreWord(text: string, text': string, ps: seq<int>, t: nat, words: seq<string>)
    requires AtWord(text, t, words) && Sealed(text, ps, t) && |text'| == |text|
    requires text[..Behind(text, t)] == text'[..Behind(text, t)]
    ensures words != [] && Sealed(text, ps, |text|) && Sealed(text', ps + [t], |text'|)
    ensures Sealed(text', ps + [t], Behind(text, t)) && Strs(text', ps + [t]) == Strs(text, ps) + [words[0]]
  {
    var all := ps + [t];
    SealedFurther(text, ps, t, Behind(text, t));
    assert Sealed(text, all, Behind(text, t));
    StrsKept(text, text', all, Behind(text, t));
    assert Strs(text, all) == Strs(text, ps) + [Str(text, t)];
  }

  /** The inner loop: the parameters up to the next connector or the end of the line. */
  method ReadParas(text: array<char>, token: int, ghost words: seq<string>) returns (paras: seq<int>, num: int, t: int)
    requires AtWord(text[..], token, words)
    modifies text
    ensures var n := ParaCount(words);
            && num == |paras| == n && Sealed(text[..], paras, text.Length) && Strs(text[..], paras) == words[..n]
            && AtWord(text[..], t, words[n..]) && (t >= 0 ==> token <= t && Sealed(text[..], paras, t))
    ensures token >= 0 ==> text[..token] == old(text[..])[..token]
  {
    hide CString, Tokens, AtWord, KindOf, Strs;
    paras, num, t := [], 0, token;
    ghost var rest := words;
    ghost var n := 0;
    StartParas(text[..], t);
    InText(text[..], t, rest);
    while true
      invariant 0 <= n <= |words| && rest == words[n..] && num == |paras| == n && Plain(words[..n])
      invariant Sealed(text[..], paras, text.Length) && Strs(text[..], paras) == words[..n]
      invariant AtWord(text[..], t, rest) && (t >= 0 ==> token <= t && Sealed(text[..], paras, t))
      invariant token >= 0 ==> text[..token] == old(text[..])[..token]
      decreases |words| - n
    {
      if t < 0 {
        break;
      }
      WordHere(text[..], t, rest);
      var word := ReadWord(text, t);
      if KindOf(word) != Exec {
        break;
      }
      ghost var before, at := text[..], t;
      paras := paras + [t];
      num := num + 1;
      t := SkipCurrent(text, t, rest);
      StoreWord(before, text[..], paras[..n], at, rest);
      assert paras == paras[..n] + [at];
      n := n + 1;
      rest := rest[1..];
      InText(text[..], t, rest);
      if t >= 0 {
        SealedFurther(text[..], paras, Behind(before, at), t);
      }
    }
    NoneHere(text[..], t, rest);
    ParaCountIs(words, n);
  }

  lemma StartParas(text: string, t: int)
    ensures Sealed(text, [], |text|) && Strs(text, []) == [] && (0 <= t <= |text| ==> Sealed(text, [], t))
  {
  }

  lemma WordHere(text: string, t: int, words: seq<string>)
    requires AtWord(text, t, words) && t >= 0
    ensures t < |text| && Behind(text, t) <= |text| && words != [] && words[0] == Str(text, t)
  {
  }

  lemma InText(text: string, t: int, words: seq<string>)
    requires AtWord(text, t, words)
    ensures t < 0 || t < |text|
  {
  }

  lemma NoneHere(text: string, t: int, words: seq<string>)
    requires AtWord(text, t, words)
    ensures t < 0 <==> words == []
  {
  }

  /** What strcmp and the executor read at a position. */
  method ReadWord(text: array<char>, q: nat) returns (s: string)
    requires q < text.Length && Behind(text[..], q) <= text.Length
    ensures s == Str(text[..], q)
  {
    var n := StrLen(text, q);
    s := text[q..q + n];
    assert s == text[..][q..][..n];
  }

  // ---- commands ----

  /** A node of the command list: positions of words, -1 for NULL. */
  datatype Command = Command(op: int, paras: seq<int>, paraNum: int, kind: Op)

  const BLANK := Command(-1, [], 0, Dead)

  /** The node holds the command, in words that end before `limit`. */
  ghost predicate Holds(text: string, c: Command, cmd: Cmd, limit: nat) {
    && c.kind == cmd.kind && c.paraNum == |c.paras| == |cmd.paras| && limit <= |text|
    && Sealed(text, [c.op] + c.paras, limit) && Sealed(text, [c.op] + c.paras, |text|)
    && Strs(text, [c.op] + c.paras) == [cmd.op] + cmd.paras
  }

  ghost predicate HoldsAll(text: string, cs: seq<Command>, cmds: seq<Cmd>, limit: nat) {
    |cs| == |cmds| && forall i :: 0 <= i < |cs| ==> Holds(text, cs[i], cmds[i], limit)
  }

  lemma HoldsFurther(text: string, c: Command, cmd: Cmd, limit: nat, limit': nat)
    requires Holds(text, c, cmd, limit) && limit <= limit' <= |text|
    ensures Holds(text, c, cmd, limit')
  {
  }

  lemma HoldsKept(text: string, text': string, c: Command, cmd: Cmd, limit: nat)
    requires Holds(text, c, cmd, limit) && |text'| == |text| && text[..limit] == text'[..limit]
    ensures Holds(text', c, cmd, limit)
  {
    hide Strs, Sealed;
    StrsKept(text, text', [c.op] + c.paras, limit);
  }

  lemma HoldsAllKept(text: string, text': string, cs: seq<Command>, cmds: seq<Cmd>, limit: nat, limit': nat)
    requires HoldsAll(text, cs, cmds, limit) && |text'| == |text| && limit <= limit' <= |text|
    requires text[..limit] == text'[..limit]
    ensures HoldsAll(text', cs, cmds, limit')
  {
    hide Holds;
    forall i | 0 <= i < |cs|
      ensures Holds(text', cs[i], cmds[i], limit')
    {
      HoldsKept(text, text', cs[i], cmds[i], limit);
      HoldsFurther(text', cs[i], cmds[i], limit, limit');
    }
  }

  /** The first command of a line. */
  function FirstOf(words: seq<string>): Cmd
    requires words != []
  {
    var n := ParaCount(words[1..]);
    var rest := words[1..][n..];
    Cmd(words[0], words[1..][..n], if rest == [] then Exec else KindOf(rest[0]))
  }

  /** The words from the connector of the first command on. */
  function RestOfLine(words: seq<string>): seq<string>
    requires words != []
  {
    words[1..][ParaCount(words[1..])..]
  }

  const CONNECTORS: set<string> := {"&&", "&", "|"}

  /** A line split at its first connector, and the type that this connector gives to the command. */
  predicate FirstSplit(words: seq<string>, cmd: Cmd, rest: seq<string>) {
    && words == [cmd.op] + cmd.paras + rest && (forall w :: w in cmd.paras ==> w !in CONNECTORS)
    && (rest == [] ==> cmd.kind == Exec)
    && (rest != [] ==>
          || (rest[0] == "&&" && cmd.kind == Multicore)
          || (rest[0] == "&" && cmd.kind == Multistart)
          || (rest[0] == "|" && cmd.kind == Pipeline))
  }

  lemma FirstIs(words: seq<string>)
    requires words != []
    ensures FirstSplit(words, FirstOf(words), RestOfLine(words))
  {
    hide ParaCount;
    var n := ParaCount(words[1..]);
    assert words == [words[0]] + words[1..][..n] + words[1..][n..];
  }

  /** The body of the loop over the commands: operation, parameters, connector. */
  method OneCommand(text: array<char>, token: nat, ghost words: seq<string>)
      returns (c: Command, next: int, failed: bool)
    requires AtWord(text[..], token, words) && words != [] && token <= text.Length
    modifies text
    ensures Holds(text[..], c, FirstOf(words), text.Length)
    ensures FirstSplit(words, FirstOf(words), RestOfLine(words))
    ensures failed <==> |RestOfLine(words)| == 1
    ensures |RestOfLine(words)| <= 1 ==> next < 0
    ensures |RestOfLine(words)| > 1 ==>
              token <= next < text.Length && AtWord(text[..], next, RestOfLine(words)[1..])
              && Holds(text[..], c, FirstOf(words), next)
    ensures text[..token] == old(text[..])[..token]
  {
    hide CString, Tokens, AtWord, KindOf, Strs, Sealed, ParaCount, Words, FirstSplit;
    FirstIs(words);
    c, next, failed := BLANK.(op := token), -1, false;
    WordHere(text[..], token, words);
    ghost var text0 := text[..];
    var t := SkipCurrent(text, token, words);
    SamePrefix(text0, text[..], Behind(text0, token), token);
    InText(text[..], t, words[1..]);
    NoneHere(text[..], t, words[1..]);
    StartParas(text0, token);
    StoreWord(text0, text[..], [], token, words);
    assert [] + [token] == [token];
    if t < 0 {
      c := c.(kind := Exec);
      NothingBehind(text[..], token, words);
      return;
    }
    ghost var text1 := text[..];
    SealedFurther(text1, [token], Behind(text0, token), t);
    var paras, num;
    ghost var at := t;
    paras, num, t := ReadParas(text, t, words[1..]);
    SamePrefix(text1, text[..], at, token);
    Together(text1, text[..], token, at, paras, words[0], words[1..][..|paras|], text.Length);
    c := c.(paras := paras, paraNum := num);
    NoneHere(text[..], t, RestOfLine(words));
    InText(text[..], t, RestOfLine(words));
    if t < 0 {
      c := c.(kind := Exec);
      return;
    }
    Together(text1, text[..], token, at, paras, words[0], words[1..][..|paras|], t);
    WordHere(text[..], t, RestOfLine(words));
    var word := ReadWord(text, t);
    c := c.(kind := KindOf(word));
    ghost var text2 := text[..];
    next := SkipCurrent(text, t, RestOfLine(words));
    SamePrefix(text2, text[..], Behind(text2, t), t);
    SamePrefix(text2, text[..], t, token);
    HoldsKept(text2, text[..], c, FirstOf(words), t);
    NoneHere(text[..], next, RestOfLine(words)[1..]);
    InText(text[..], next, RestOfLine(words)[1..]);
    HoldsFurther(text[..], c, FirstOf(words), t, if next < 0 then text.Length else next);
    HoldsFurther(text[..], c, FirstOf(words), t, text.Length);
    failed := next < 0;
  }

  lemma SamePrefix(text: string, text': string, n: nat, m: nat)
    requires m <= n <= |text| == |text'| && text[..n] == text'[..n]
    ensures text[..m] == text'[..m]
  {
    assert text[..m] == text[..n][..m];
  }

  lemma NothingBehind(text: string, token: nat, words: seq<string>)
    requires |words| == 1 && Sealed(text, [token], |text|) && Strs(text, [token]) == [words[0]]
    ensures Holds(text, Command(token, [], 0, Exec), FirstOf(words), |text|) && RestOfLine(words) == []
  {
    assert [token] + [] == [token] && [words[0]] + [] == [words[0]];
  }

  /** The operation, stored first, and the parameters, stored after it. */
  lemma Together(text: string, text': string, token: nat, at: nat, paras: seq<int>, op: string, names: seq<string>,
                 limit: nat)
    requires Sealed(text, [token], at) && Sealed(text, [token], |text|) && Strs(text, [token]) == [op]
    requires |text'| == |text| && text[..at] == text'[..at] && at <= limit <= |text|
    requires Sealed(text', paras, limit) && Sealed(text', paras, |text'|) && Strs(text', paras) == names
    ensures Sealed(text', [token] + paras, limit) && Sealed(text', [token] + paras, |text'|)
    ensures Strs(text', [token] + paras) == [op] + names
  {
    StrsKept(text, text', [token], at);
    assert Strs(text', [token] + paras) == Strs(text', [token]) + Strs(text', paras);
  }

  /** What the executor runs: the nodes before the first dead one. */
  function Live(list: seq<Command>): seq<Command> {
    if list == [] || list[0].kind == Dead then [] else [list[0]] + Live(list[1..])
  }

  lemma {:induction false} LiveIs(list: seq<Command>, m: nat)
    requires m <= |list| && (forall i :: 0 <= i < m ==> list[i].kind != Dead) && (m < |list| ==> list[m].kind == Dead)
    ensures Live(list) == list[..m]
  {
    if m > 0 {
      LiveIs(list[1..], m - 1);
      assert list[..m] == [list[0]] + list[1..][..m - 1];
    }
  }

  lemma {:induction false} WellFormedAlive(cmds: seq<Cmd>, i: nat)
    requires WellFormed(cmds) && i < |cmds|
    ensures cmds[i].kind != Dead
  {
    if i > 0 {
      WellFormedAlive(cmds[1..], i - 1);
    }
  }

  /** The parse of a line is that of its first command and of the words behind the connector. */
  lemma ParseStep(words: seq<string>)
    requires words != []
    ensures Parse(words) ==
              if RestOfLine(words) == [] then Good([FirstOf(words)])
              else if |RestOfLine(words)| == 1 then Trailing
              else Before([FirstOf(words)], Parse(RestOfLine(words)[1..]))
  {
  }

  lemma BeforeBefore(a: seq<Cmd>, b: seq<Cmd>, p: Parsed)
    ensures Before(a, Before(b, p)) == Before(a + b, p)
  {
    if p.Good? {
      assert a + (b + p.cmds) == (a + b) + p.cmds;
    }
  }

  // ---------------------------------------------------------------- the reusable list of command nodes

  const NULL := 0

  /** The commands in the nodes of a list. */
  function Reading(nodes: map<int, Command>, order: seq<int>): seq<Command> {
    seq(|order|, i requires 0 <= i < |order| => if order[i] in nodes then nodes[order[i]] else BLANK)
  }

  lemma ReadingSet(nodes: map<int, Command>, order: seq<int>, i: nat, c: Command)
    requires NoDuplicates(order) && i < |order|
    ensures Reading(nodes[order[i] := c], order) == Reading(nodes, order)[i := c]
  {
  }

  lemma ReadingMore(nodes: map<int, Command>, order: seq<int>, x: int, c: Command)
    requires x !in order
    ensures Reading(nodes[x := c], order + [x]) == Reading(nodes, order) + [c]
  {
  }

  class CommandList {
    var head: int
    var next: Links
    var nodes: map<int, Command>
    var top: int
    ghost var order: seq<int>

    /** The nodes are linked in the order `order`; better_malloc gives the addresses from `top` on. */
    ghost predicate Valid()
      reads this
    {
      && Linked(next, NULL, head, order) && NoDuplicates(order)
      && top > NULL && forall x :: x in order ==> x in nodes && NULL < x < top
    }

    ghost function List(): seq<Command>
      reads this
    {
      Reading(nodes, order)
    }

    constructor ()
      ensures Valid() && List() == [] && order == []
    {
      head, next, nodes, top, order := NULL, map[], map[], NULL + 1, [];
    }

    /** The node at position `i`, if `p` points there. */
    ghost predicate Points(p: int, i: nat)
      reads this
    {
      i < |order| && p == order[i] && p in nodes
    }

    method Set(p: int, c: Command, ghost i: nat)
      requires Valid() && Points(p, i)
      modifies this`nodes
      ensures Valid() && List() == old(List())[i := c] && Points(p, i) && nodes == old(nodes)[p := c]
    {
      hide Linked, NoDuplicates, Reading;
      ReadingSet(nodes, order, i, c);
      nodes := nodes[p := c];
    }

    /** The node behind `p`, or NULL. */
    method Next(p: int, ghost i: nat) returns (q: int)
      requires Valid() && Points(p, i)
      ensures if i + 1 < |order| then Points(q, i + 1) && q != NULL else q == NULL
    {
      hide NoDuplicates, Linked;
      LinkedCursor(next, NULL, head, order, i);
      q := next[p];
      assert i + 1 < |order| ==> order[i + 1] in order;
    }

    /** A new node behind the last one. */
    method Append(p: int, ghost i: nat) returns (q: int)
      requires Valid() && Points(p, i) && i + 1 == |order|
      modifies this
      ensures Valid() && order == old(order) + [q] && List() == old(List()) + [BLANK] && Points(q, i + 1)
          && Points(p, i)
      ensures head == old(head)
    {
      hide NoDuplicates, Linked, Reading;
      q := top;
      LinkedInsert(next, NULL, head, order, i, q);
      NoDuplicatesInserted(order, |order|, q);
      assert Inserted(order, i + 1, q) == order + [q];
      ReadingMore(nodes, order, q, BLANK);
      next := next[p := q][q := NULL];
      nodes := nodes[q := BLANK];
      top := top + 1;
      order := order + [q];
    }

    /** On to the next node, which is made if there is none. */
    method Advance(p: int, ghost i: nat) returns (q: int)
      requires Valid() && Points(p, i) && |List()| == |order|
      modifies this
      ensures Valid() && Points(q, i + 1) && old(order) <= order && |List()| == |order| && old(List()) <= List()
      ensures forall j :: |old(order)| <= j < |order| ==> List()[j] == BLANK
    {
      hide NoDuplicates, Linked, Reading;
      q := Next(p, i);
      if q == NULL {
        q := Append(p, i);
      }
    }

    /** The first node of an empty list. */
    method Begin()
      requires Valid() && order == []
      modifies this
      ensures Valid() && |order| == 1 && List() == [BLANK]
    {
      hide NoDuplicates, Linked;
      LinkedPush(next, NULL, head, order, top);
      NoDuplicatesInserted(order, 0, top);
      assert Inserted(order, 0, top) == [top] + order == order + [top];
      ReadingMore(nodes, order, top, BLANK);
      assert Reading(nodes, order) == [];
      next := next[top := head];
      nodes := nodes[top := BLANK];
      head := top;
      order := [top] + order;
      top := top + 1;
    }

    method First() returns (p: int)
      requires Valid()
      ensures if order == [] then p == NULL else p != NULL && Points(p, 0)
    {
      hide NoDuplicates, Linked;
      LinkedHead(next, NULL, head, order);
      assert order != [] ==> order[0] in order;
      p := head;
    }

    /** free_paras */
    method FreeParas(p: int, ghost i: nat)
      requires Valid() && Points(p, i)
      modifies this`nodes
      ensures var c := old(nodes)[p].(paras := [], paraNum := 0, kind := Dead);
              Valid() && Points(p, i) && nodes == old(nodes)[p := c] && List() == old(List())[i := c]
    {
      Set(p, nodes[p].(paras := [], paraNum := 0, kind := Dead), i);
    }

    /** clear_command: every node is dead and empty, and stays where it is. */
    method Clear()
      requires Valid()
      modifies this`nodes
      ensures Valid() && |List()| == |order| && forall i :: 0 <= i < |order| ==> List()[i] == BLANK
    {
      hide NoDuplicates, Linked;
      ghost var i := 0;
      var p := First();
      while p != NULL
        invariant Valid() && 0 <= i <= |order| && if i < |order| then Points(p, i) else p == NULL
        invariant forall j :: 0 <= j < i ==> List()[j] == BLANK
        decreases |order| - i
      {
        var q := Next(p, i);
        FreeParas(p, i);
        Set(p, nodes[p].(op := -1), i);
        p, i := q, i + 1;
      }
    }

    /** build_command. Whatever the list held before, its live part is the parse of the line: flattening
        it gives back the words of the line. A connector without a command behind it leaves nothing
        alive, and so does an empty line. The nodes that were there are used again, in their order. */
    method Build(text: array<char>)
      requires Valid() && Unread(text[..], 0)
      modifies this, text
      ensures Valid() && old(order) <= order
      ensures var words := Words(old(text[..]), 0);
              if words == [] then Live(List()) == []
              else match Parse(words)
                case Trailing => Dropped(List())
                case Good(cmds) => HoldsAll(text[..], Live(List()), cmds, text.Length) && Flatten(cmds) == words
    {
      hide Tokens, CString, AtWord, Holds, Parse, WellFormed, NoDuplicates, Linked, Reading;
      Clear();
      var token := GetToken(text);
      ghost var words := Words(old(text[..]), 0);
      NoneHere(text[..], token, words);
      if token < 0 {
        LiveIs(List(), 0);
        return;
      }
      if head == NULL {
        LinkedHead(next, NULL, head, order);
        Begin();
      }
      LinkedHead(next, NULL, head, order);
      Commands(text, token, words);
    }

    /** The loop of build_command over the commands of a line. */
    method Commands(text: array<char>, first: nat, ghost words: seq<string>)
      requires AtWord(text[..], first, words) && words != []
      requires Valid() && order != [] && |List()| == |order| && forall j :: 0 <= j < |order| ==> List()[j] == BLANK
      modifies this, text
      ensures Valid() && old(order) <= order
      ensures match Parse(words)
              case Trailing => Dropped(List())
              case Good(cmds) => HoldsAll(text[..], Live(List()), cmds, text.Length) && Flatten(cmds) == words
    {
      hide Tokens, CString, AtWord, Holds, Parse, WellFormed, HoldsAll, FirstOf, RestOfLine, Before, NoDuplicates,
          Linked, Reading;
      var token := first;
      var p := First();
      ghost var i, rest, done := 0, words, [];
      InText(text[..], token, words);
      NoneDone(text[..], token, Parse(words));
      while true
        invariant Valid() && Points(p, i) && old(order) <= order && |List()| == |order|
        invariant 0 <= token < text.Length && rest != []
        invariant forall j :: i <= j < |order| ==> List()[j] == BLANK
        invariant AtWord(text[..], token, rest) && Parse(words) == Before(done, Parse(rest))
        invariant HoldsAll(text[..], List()[..i], done, token)
        decreases |rest|
      {
        ghost var before := text[..];
        var c, behind, failed := OneCommand(text, token, rest);
        ghost var all := List()[..i] + [c];
        Set(p, c, i);
        assert List()[..i + 1] == all;
        OneMore(before, text[..], all, c, done, rest, token, behind);
        if failed {
          TrailingNow(words, done, rest);
          var h := First();
          FreeParas(h, 0);
          LiveIs(List(), 0);
          return;
        }
        if behind < 0 {
          AllDone(text[..], List(), i + 1, done, rest, words);
          return;
        }
        p := Advance(p, i);
        assert List()[..i + 1] == all;
        ParseOn(words, done, rest);
        done, rest := done + [FirstOf(rest)], RestOfLine(rest)[1..];
        i, token := i + 1, behind;
      }
    }
  }

  /** After an error: the first node is dead and has no parameters, and nothing is alive. */
  ghost predicate Dropped(list: seq<Command>) {
    list != [] && list[0].kind == Dead && list[0].paras == [] && Live(list) == []
  }

  lemma NoneDone(text: string, limit: nat, p: Parsed)
    ensures Before([], p) == p && HoldsAll(text, [], [], limit)
  {
  }

  lemma OneMore(text: string, text': string, all: seq<Command>, c: Command, done: seq<Cmd>, rest: seq<string>,
                token: nat, next: int)
    requires all != [] && all[|all| - 1] == c && HoldsAll(text, all[..|all| - 1], done, token) && rest != []
    requires |text'| == |text| && token <= |text| && text'[..token] == text[..token]
    requires Holds(text', c, FirstOf(rest), |text'|)
    requires 0 <= next ==> token <= next <= |text| && Holds(text', c, FirstOf(rest), next)
    ensures HoldsAll(text', all, done + [FirstOf(rest)], |text'|)
    ensures 0 <= next ==> HoldsAll(text', all, done + [FirstOf(rest)], next)
  {
    hide Holds, FirstOf;
    HoldsAllKept(text, text', all[..|all| - 1], done, token, |text|);
    if 0 <= next {
      HoldsAllKept(text, text', all[..|all| - 1], done, token, next);
    }
  }

  lemma TrailingNow(words: seq<string>, done: seq<Cmd>, rest: seq<string>)
    requires words != [] && rest != [] && Parse(words) == Before(done, Parse(rest)) && |RestOfLine(rest)| == 1
    ensures Parse(words) == Trailing
  {
    hide Parse, RestOfLine, FirstOf;
    ParseStep(rest);
  }

  lemma ParseOn(words: seq<string>, done: seq<Cmd>, rest: seq<string>)
    requires words != [] && rest != [] && Parse(words) == Before(done, Parse(rest)) && |RestOfLine(rest)| > 1
    ensures Parse(words) == Before(done + [FirstOf(rest)], Parse(RestOfLine(rest)[1..]))
    ensures |RestOfLine(rest)| < |rest|
  {
    hide Parse, FirstOf;
    ParseStep(rest);
    BeforeBefore(done, [FirstOf(rest)], Parse(RestOfLine(rest)[1..]));
  }

  lemma AllDone(text: string, list: seq<Command>, m: nat, done: seq<Cmd>, rest: seq<string>, words: seq<string>)
    requires words != [] && rest != [] && Parse(words) == Before(done, Parse(rest)) && RestOfLine(rest) == []
    requires m <= |list| && HoldsAll(text, list[..m], done + [FirstOf(rest)], |text|)
    requires forall j :: m <= j < |list| ==> list[j] == BLANK
    ensures Parse(words).Good? && HoldsAll(text, Live(list), Parse(words).cmds, |text|)
        && Flatten(Parse(words).cmds) == words
  {
    hide Parse, RestOfLine, FirstOf, WellFormed, Flatten, Sealed, Strs;
    ParseStep(rest);
    FlattenOfParse(words);
    var cmds := Parse(words).cmds;
    assert cmds == done + [FirstOf(rest)];
    forall i | 0 <= i < m
      ensures list[i].kind != Dead
    {
      WellFormedAlive(cmds, i);
      assert list[..m][i] == list[i] && Holds(text, list[..m][i], cmds[i], |text|);
    }
    LiveIs(list, m);
  }
}
