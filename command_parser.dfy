/** src/libs/TombalaCommandParser.js: turning a chat line into a `!tombala` command and its
    arguments, and the help line that lists the commands. */
module CommandParser {
  import opened Wrappers

  const PREFIX: string := "!tombala"

  /** The values of `COMMAND_ALIASES`. */
  datatype Command = Yardim | Baslat | Katil | Basla | Cek | Seed | Durum | Kazan | Bitir

  /** The key of `COMMAND_ALIASES` for a command; every key maps to the command of the same name. */
  function Name(c: Command): string
  {
    match c
    case Yardim => "yardim"
    case Baslat => "baslat"
    case Katil => "katil"
    case Basla => "basla"
    case Cek => "cek"
    case Seed => "seed"
    case Durum => "durum"
    case Kazan => "kazan"
    case Bitir => "bitir"
  }

  /** `COMMAND_ALIASES[key]` restricted to the object's own keys. */
  function LookupAlias(key: string): (r: Option<Command>)
    ensures r.Some? ==> Name(r.value) == key
  {
    if key == "yardim" then Some(Yardim)
    else if key == "baslat" then Some(Baslat)
    else if key == "katil" then Some(Katil)
    else if key == "basla" then Some(Basla)
    else if key == "cek" then Some(Cek)
    else if key == "seed" then Some(Seed)
    else if key == "durum" then Some(Durum)
    else if key == "kazan" then Some(Kazan)
    else if key == "bitir" then Some(Bitir)
    else None
  }

  /** What `handleMessage` passes in: a string, or some other value (`null`, `undefined`, a number). */
  datatype Input = Text(s: string) | NonText

  /** `{ cmd, args }`. */
  datatype Parsed = Parsed(cmd: Command, args: seq<string>)

  /** The characters `String.prototype.trim` removes and `/\s/` matches: ECMAScript white space
      and line terminators. */
  predicate IsSpace(c: char)
  {
    || c == ' ' || '\t' <= c <= '\r' || c == '\U{00A0}' || c == '\U{1680}'
    || '\U{2000}' <= c <= '\U{200A}' || c == '\U{2028}' || c == '\U{2029}' || c == '\U{202F}'
    || c == '\U{205F}' || c == '\U{3000}' || c == '\U{FEFF}'
  }

  predicate AllSpace(s: string)
  {
    forall k :: 0 <= k < |s| ==> IsSpace(s[k])
  }

  /** A token of `split(/\s+/)` on a trimmed line: non-empty and free of white space. */
  predicate Word(w: string)
  {
    w != [] && forall k :: 0 <= k < |w| ==> !IsSpace(w[k])
  }

  /** `trimStart`: the longest suffix that does not start with white space. */
  function TrimStart(s: string): (r: string)
    ensures |r| <= |s|
    ensures r == [] || !IsSpace(r[0])
  {
    if s != [] && IsSpace(s[0]) then TrimStart(s[1..]) else s
  }

  /** `trimEnd`: the longest prefix that does not end with white space. */
  function TrimEnd(s: string): (r: string)
    ensures |r| <= |s|
    ensures r == [] || !IsSpace(r[|r| - 1])
  {
    if s != [] && IsSpace(s[|s| - 1]) then TrimEnd(s[..|s| - 1]) else s
  }

  /** `trim`: white space removed from both ends. */
  function Trim(s: string): string
  {
    TrimEnd(TrimStart(s))
  }

  /** `toLowerCase` on one character, for the Basic Latin letters. */
  function LowerChar(c: char): (d: char)
    ensures 'A' <= c <= 'Z' ==> d as int == c as int + 32
    ensures !('A' <= c <= 'Z') ==> d == c
  {
    if 'A' <= c <= 'Z' then (c as int + 32) as char else c
  }

  function Lower(s: string): (r: string)
    ensures |r| == |s| && forall k :: 0 <= k < |s| ==> r[k] == LowerChar(s[k])
  {
    seq(|s|, k requires 0 <= k < |s| => LowerChar(s[k]))
  }

  predicate StartsWith(s: string, prefix: string)
  {
    |prefix| <= |s| && s[..|prefix|] == prefix
  }

  /** `s.split(/\s+/)`: the pieces between runs of white space; a leading or trailing run yields
      an empty first or last piece, and the empty string splits into one empty piece. */
  function Split(s: string): (parts: seq<string>)
    ensures |parts| >= 1
    decreases |s|
  {
    if s == [] then [""]
    else if IsSpace(s[0]) then [""] + Split(TrimStart(s))
    else
      var rest := Split(s[1..]);
      [[s[0]] + rest[0]] + rest[1..]
  }

  /** `parts.join(sep)`. */
  function Join(parts: seq<string>, sep: string): string
  {
    if parts == [] then ""
    else if |parts| == 1 then parts[0]
    else parts[0] + sep + Join(parts[1..], sep)
  }

  /** The tokens of a line that begins with the prefix, or none when the line is not a command
      (`!input`, a non-string, or a trimmed line whose lower case lacks the prefix). */
  function Tokens(input: Input): Option<seq<string>>
  {
    match input
    case NonText => None
    case Text(s) =>
      if s == [] then None
      else
        var trimmed := Trim(s);
        if !StartsWith(Lower(trimmed), PREFIX) then None else Some(Split(trimmed))
  }

  /** `[parts.slice(2).join(' ').trim()].filter(Boolean)`. */
  function SeedArgs(rest: seq<string>): seq<string>
  {
    var text := Trim(Join(rest, " "));
    if text == "" then [] else [text]
  }

  /** `parseTombalaCommand` with the subcommand looked up among `COMMAND_ALIASES`' own keys.
      A line is a command exactly when it is a string whose trimmed lower case starts with the prefix. */
  function Parse(input: Input): (r: Option<Parsed>)
    ensures r.None? <==> input.NonText? || !StartsWith(Lower(Trim(input.s)), PREFIX)
  {
    match Tokens(input)
    case None => None
    case Some(parts) =>
      if |parts| < 2 then Some(Parsed(Yardim, []))
      else
        match LookupAlias(Lower(parts[1]))
        case None => Some(Parsed(Yardim, parts[1..]))
        case Some(cmd) => Some(Parsed(cmd, if cmd == Seed then SeedArgs(parts[2..]) else parts[2..]))
  }

  /** What `COMMAND_ALIASES[key]` finds in the object literal: one of its own keys, or a member
      every object inherits from `Object.prototype`. */
  datatype Lookup = Alias(cmd: Command) | Inherited(key: string)

  /** `Object.prototype`'s member names that are already lower case; both values are truthy. */
  predicate InheritedKey(key: string)
  {
    key == "constructor" || key == "__proto__"
  }

  function LookupAsWritten(key: string): Option<Lookup>
  {
    match LookupAlias(key)
    case Some(cmd) => Some(Alias(cmd))
    case None => if InheritedKey(key) then Some(Inherited(key)) else None
  }

  datatype ParsedAsWritten = ParsedAsWritten(cmd: Lookup, args: seq<string>)

  /** `parseTombalaCommand` as written: the plain object lookup also finds inherited members, whose
      values are then returned as the command. */
  function ParseAsWritten(input: Input): Option<ParsedAsWritten>
  {
    match Tokens(input)
    case None => None
    case Some(parts) =>
      if |parts| < 2 then Some(ParsedAsWritten(Alias(Yardim), []))
      else
        match LookupAsWritten(Lower(parts[1]))
        case None => Some(ParsedAsWritten(Alias(Yardim), parts[1..]))
        case Some(found) =>
          Some(ParsedAsWritten(found, if found == Alias(Seed) then SeedArgs(parts[2..]) else parts[2..]))
  }

  /** The commands in the order `getTombalaHelpText` lists them. */
  const HELP_ORDER: seq<Command> := [Yardim, Baslat, Katil, Basla, Cek, Seed, Durum, Kazan, Bitir]

  /** The words of one usage line: the prefix, the command, and `<string>` after `seed`. */
  function UsageWords(c: Command): seq<string>
  {
    if c == Seed then [PREFIX, Name(c), "<string>"] else [PREFIX, Name(c)]
  }

  function Usage(c: Command): string
  {
    Join(UsageWords(c), " ")
  }

  /** The usage lines in help order. */
  function Usages(): (u: seq<string>)
    ensures |u| == |HELP_ORDER| && forall i :: 0 <= i < |u| ==> u[i] == Usage(HELP_ORDER[i])
  {
    seq(|HELP_ORDER|, i requires 0 <= i < |HELP_ORDER| => Usage(HELP_ORDER[i]))
  }

  /** `getTombalaHelpText`: the usages of the nine commands joined by `" | "`. */
  function HelpText(): string
  {
    Join(Usages(), " | ")
  }

  // ----- Lemmas: the alias table -----

  /** Looking up a command's own name finds that command, and only a name finds anything. */
  lemma LookupName(c: Command)
    ensures LookupAlias(Name(c)) == Some(c)
  {
  }

  /** A key finds exactly the command of that name. */
  lemma LookupAliasExact(key: string)
    ensures forall c :: LookupAlias(key) == Some(c) <==> Name(c) == key
  {
    forall c ensures LookupAlias(key) == Some(c) <==> Name(c) == key {
      if Name(c) == key {
        LookupName(c);
      }
    }
  }

  /** Every command appears in the help order exactly once. */
  lemma HelpOrderComplete(c: Command)
    ensures c in HELP_ORDER
    ensures forall i, j :: 0 <= i < j < |HELP_ORDER| ==> HELP_ORDER[i] != HELP_ORDER[j]
  {
  }

  // ----- Lemmas: trimming -----

  /** Leading white space does not change `trimStart`. */
  lemma {:induction false} TrimStartPad(pad: string, s: string)
    requires AllSpace(pad)
    ensures TrimStart(pad + s) == TrimStart(s)
    decreases |pad|
  {
    if pad != [] {
      assert (pad + s)[0] == pad[0];
      assert (pad + s)[1..] == pad[1..] + s;
      TrimStartPad(pad[1..], s);
    } else {
      assert pad + s == s;
    }
  }

  /** Trailing white space does not change `trimEnd`. */
  lemma {:induction false} TrimEndPad(s: string, pad: string)
    requires AllSpace(pad)
    ensures TrimEnd(s + pad) == TrimEnd(s)
    decreases |pad|
  {
    if pad != [] {
      var k := |pad| - 1;
      assert (s + pad)[|s + pad| - 1] == pad[k];
      assert (s + pad)[..|s + pad| - 1] == s + pad[..k];
      TrimEndPad(s, pad[..k]);
    } else {
      assert s + pad == s;
    }
  }

  /** Trailing white space survives `trimStart` unless the line is white space throughout. */
  lemma {:induction false} TrimStartAppend(s: string, pad: string)
    requires AllSpace(pad)
    ensures TrimStart(s) != [] ==> TrimStart(s + pad) == TrimStart(s) + pad
    ensures TrimStart(s) == [] ==> TrimStart(s + pad) == []
    decreases |s|
  {
    if s == [] {
      assert s + pad == pad;
      AllSpaceTrimStart(pad);
    } else if IsSpace(s[0]) {
      assert (s + pad)[0] == s[0];
      assert (s + pad)[1..] == s[1..] + pad;
      TrimStartAppend(s[1..], pad);
    } else {
      assert (s + pad)[0] == s[0];
    }
  }

  /** A string of white space trims to nothing. */
  lemma AllSpaceTrimStart(s: string)
    requires AllSpace(s)
    ensures TrimStart(s) == []
  {
    TrimStartPad(s, []);
    assert s + [] == s;
  }

  /** White space around a line does not change its trim. */
  lemma TrimPadded(pad1: string, s: string, pad2: string)
    requires AllSpace(pad1) && AllSpace(pad2)
    ensures Trim(pad1 + s + pad2) == Trim(s)
  {
    assert pad1 + s + pad2 == pad1 + (s + pad2);
    TrimStartPad(pad1, s + pad2);
    TrimStartAppend(s, pad2);
    if TrimStart(s) != [] {
      TrimEndPad(TrimStart(s), pad2);
    }
  }

  /** A string without white space at either end is its own trim. */
  lemma TrimClean(s: string)
    requires s != [] && !IsSpace(s[0]) && !IsSpace(s[|s| - 1])
    ensures Trim(s) == s
  {
  }

  /** White space around a line does not change how it parses. */
  lemma ParsePadded(pad1: string, s: string, pad2: string)
    requires AllSpace(pad1) && AllSpace(pad2) && s != []
    ensures Parse(Text(pad1 + s + pad2)) == Parse(Text(s))
  {
    TrimPadded(pad1, s, pad2);
  }

  // ----- Lemmas: splitting and joining -----

  /** Splitting a string that starts with a word glues the word onto the first piece. */
  lemma {:induction false} SplitAfterWord(w: string, t: string)
    requires Word(w)
    ensures Split(w + t) == [w + Split(t)[0]] + Split(t)[1..]
    decreases |w|
  {
    var s := w + t;
    assert s[0] == w[0] && !IsSpace(s[0]);
    assert s[1..] == w[1..] + t;
    if |w| == 1 {
      assert w[1..] + t == t;
      assert [w[0]] == w;
    } else {
      SplitAfterWord(w[1..], t);
      assert [w[0]] + (w[1..] + Split(t)[0]) == w + Split(t)[0];
    }
  }

  /** Splitting a single space followed by a word-led line drops the space and leaves an empty first piece. */
  lemma SplitAfterSpace(rest: string)
    requires rest != [] && !IsSpace(rest[0])
    ensures Split(" " + rest) == [""] + Split(rest)
  {
    var s := " " + rest;
    assert s[0] == ' ' && s[1..] == rest;
    assert IsSpace(s[0]);
    assert TrimStart(s) == TrimStart(rest) == rest;
  }

  /** A line of words starts with the first word and ends with the last character of the last word. */
  lemma {:induction false} JoinEnds(ws: seq<string>)
    requires |ws| >= 1 && forall i :: 0 <= i < |ws| ==> Word(ws[i])
    ensures |Join(ws, " ")| >= |ws[0]| > 0
    ensures Join(ws, " ")[..|ws[0]|] == ws[0]
    ensures !IsSpace(Join(ws, " ")[|Join(ws, " ")| - 1])
    decreases |ws|
  {
    assert Word(ws[0]);
    if |ws| > 1 {
      JoinEnds(ws[1..]);
      var rest := Join(ws[1..], " ");
      assert Join(ws, " ") == ws[0] + " " + rest;
      assert Join(ws, " ")[|Join(ws, " ")| - 1] == rest[|rest| - 1];
    } else {
      var w := ws[0];
      assert w[|w| - 1] == Join(ws, " ")[|Join(ws, " ")| - 1];
    }
  }

  /** Joining words with single spaces and splitting on white space gives the words back. */
  lemma {:induction false} SplitJoin(ws: seq<string>)
    requires |ws| >= 1 && forall i :: 0 <= i < |ws| ==> Word(ws[i])
    ensures Split(Join(ws, " ")) == ws
    decreases |ws|
  {
    var w := ws[0];
    assert Word(w);
    if |ws| == 1 {
      SplitAfterWord(w, "");
      assert w + "" == w;
    } else {
      var rest := Join(ws[1..], " ");
      SplitJoin(ws[1..]);
      JoinEnds(ws[1..]);
      assert rest[0] == ws[1][0];
      assert Join(ws, " ") == w + (" " + rest);
      SplitAfterWord(w, " " + rest);
      SplitAfterSpace(rest);
      assert w + "" == w;
    }
  }

  /** A line of words is its own trim. */
  lemma JoinTrimmed(ws: seq<string>)
    requires |ws| >= 1 && forall i :: 0 <= i < |ws| ==> Word(ws[i])
    ensures Trim(Join(ws, " ")) == Join(ws, " ") != []
  {
    JoinEnds(ws);
    var s := Join(ws, " ");
    assert s[0] == ws[0][0];
    TrimClean(s);
  }

  // ----- Lemmas: what a typed line parses to -----

  /** A line of words that begins with the prefix parses as the words say: a bare prefix asks for
      help; an unknown second word asks for help with every word after the prefix; `seed` takes
      the rest of the line as one argument when there is any; any other command takes the
      remaining words as its arguments. */
  lemma ParseWords(ws: seq<string>)
    requires |ws| >= 1 && forall i :: 0 <= i < |ws| ==> Word(ws[i])
    requires StartsWith(Lower(ws[0]), PREFIX)
    ensures |ws| == 1 ==> Parse(Text(Join(ws, " "))) == Some(Parsed(Yardim, []))
    ensures |ws| >= 2 && LookupAlias(Lower(ws[1])).None? ==>
      Parse(Text(Join(ws, " "))) == Some(Parsed(Yardim, ws[1..]))
    ensures |ws| >= 2 && LookupAlias(Lower(ws[1])) == Some(Seed) ==>
      Parse(Text(Join(ws, " "))) == Some(Parsed(Seed, if |ws| == 2 then [] else [Join(ws[2..], " ")]))
    ensures |ws| >= 2 && LookupAlias(Lower(ws[1])).Some? && LookupAlias(Lower(ws[1])) != Some(Seed) ==>
      Parse(Text(Join(ws, " "))) == Some(Parsed(LookupAlias(Lower(ws[1])).value, ws[2..]))
  {
    TokensOfWords(ws);
    if |ws| >= 2 && LookupAlias(Lower(ws[1])) == Some(Seed) {
      SeedArgsOfWords(ws[2..]);
    }
  }

  /** A line of words that begins with the prefix is a command whose tokens are those words. */
  lemma TokensOfWords(ws: seq<string>)
    requires |ws| >= 1 && forall i :: 0 <= i < |ws| ==> Word(ws[i])
    requires StartsWith(Lower(ws[0]), PREFIX)
    ensures Tokens(Text(Join(ws, " "))) == Some(ws)
  {
    var line := Join(ws, " ");
    JoinTrimmed(ws);
    JoinEnds(ws);
    SplitJoin(ws);
    var low := Lower(line);
    assert low[..|PREFIX|] == Lower(ws[0])[..|PREFIX|] by {
      forall k | 0 <= k < |PREFIX| ensures low[k] == Lower(ws[0])[k] {
        assert line[k] == ws[0][k];
      }
    }
  }

  /** The seed argument of a line is its remaining words as one string, or nothing. */
  lemma SeedArgsOfWords(rest: seq<string>)
    requires forall i :: 0 <= i < |rest| ==> Word(rest[i])
    ensures SeedArgs(rest) == if rest == [] then [] else [Join(rest, " ")]
  {
    if rest == [] {
      assert Trim("") == "";
    } else {
      JoinTrimmed(rest);
    }
  }

  /** A word of printable Basic Latin characters without capitals is a word and its own lower case. */
  lemma PlainWord(s: string)
    requires s != [] && forall k :: 0 <= k < |s| ==> '!' <= s[k] <= '~' && !('A' <= s[k] <= 'Z')
    ensures Word(s) && Lower(s) == s
  {
  }

  /** Each usage in the help line parses back to its own command. */
  lemma UsageParses(c: Command)
    ensures Parse(Text(Usage(c))) == Some(Parsed(c, if c == Seed then ["<string>"] else []))
  {
    var ws := UsageWords(c);
    UsageWordsPlain(c);
    LookupName(c);
    ParseWords(ws);
    if c == Seed {
      assert ws[2..] == ["<string>"];
    } else {
      assert ws[2..] == [];
    }
  }

  /** The words of a usage are words, the first is the prefix and the second the command's name. */
  lemma UsageWordsPlain(c: Command)
    ensures var ws := UsageWords(c);
      && |ws| >= 2 && (forall i :: 0 <= i < |ws| ==> Word(ws[i]))
      && StartsWith(Lower(ws[0]), PREFIX) && Lower(ws[1]) == Name(c)
  {
    PlainWord(PREFIX);
    NamePlain(c);
    PlainWord("<string>");
  }

  /** A command's name is a lower-case word. */
  lemma NamePlain(c: Command)
    ensures Word(Name(c)) && Lower(Name(c)) == Name(c)
  {
    PlainWord(Name(c));
  }

  /** `part` occurs in `s` starting at index `i`. */
  predicate OccursAt(s: string, part: string, i: int)
  {
    0 <= i <= |s| - |part| && s[i..i + |part|] == part
  }

  /** Every part of a joined list occurs in the joined string. */
  lemma {:induction false} JoinContains(parts: seq<string>, sep: string, k: nat)
    requires k < |parts|
    ensures exists i :: OccursAt(Join(parts, sep), parts[k], i)
    decreases |parts|
  {
    var j := Join(parts, sep);
    if k == 0 {
      if |parts| > 1 {
        assert j == parts[0] + (sep + Join(parts[1..], sep));
      }
      assert j[0..|parts[0]|] == parts[0];
      assert OccursAt(j, parts[0], 0);
    } else {
      var rest := Join(parts[1..], sep);
      JoinContains(parts[1..], sep, k - 1);
      var i :| OccursAt(rest, parts[1..][k - 1], i);
      var off := |parts[0]| + |sep|;
      assert j == (parts[0] + sep) + rest;
      assert j[off + i..off + i + |parts[k]|] == rest[i..i + |parts[k]|];
      assert OccursAt(j, parts[k], off + i);
    }
  }

  /** The help line shows the usage of every command. */
  lemma HelpListsEveryCommand(c: Command)
    ensures exists i :: OccursAt(HelpText(), Usage(c), i)
  {
    HelpOrderComplete(c);
    var k :| 0 <= k < |HELP_ORDER| && HELP_ORDER[k] == c;
    var usages := Usages();
    assert usages[k] == Usage(c);
    JoinContains(usages, " | ", k);
    var i :| OccursAt(Join(usages, " | "), usages[k], i);
    assert OccursAt(HelpText(), Usage(c), i);
  }

  // ----- The inherited-key finding -----

  /** As written, `!tombala constructor` yields `Object.prototype.constructor` as the command:
      neither one of the nine commands nor the help the code falls back to for unknown words.
      With the lookup restricted to own keys the line asks for help, like any unknown word. */
  lemma InheritedKeyParsesAsWritten()
    ensures ParseAsWritten(Text("!tombala constructor")) == Some(ParsedAsWritten(Inherited("constructor"), []))
    ensures Parse(Text("!tombala constructor")) == Some(Parsed(Yardim, ["constructor"]))
  {
    var ws := [PREFIX, "constructor"];
    PlainWord(PREFIX);
    PlainWord("constructor");
    assert Join(ws, " ") == "!tombala constructor";
    InheritedWordParses(ws);
  }

  /** A line whose second word is an inherited key finds that member as written, and asks for
      help once the lookup keeps to own keys. */
  lemma InheritedWordParses(ws: seq<string>)
    requires |ws| >= 2 && forall i :: 0 <= i < |ws| ==> Word(ws[i])
    requires StartsWith(Lower(ws[0]), PREFIX) && InheritedKey(Lower(ws[1]))
    ensures ParseAsWritten(Text(Join(ws, " "))) == Some(ParsedAsWritten(Inherited(Lower(ws[1])), ws[2..]))
    ensures Parse(Text(Join(ws, " "))) == Some(Parsed(Yardim, ws[1..]))
  {
    TokensOfWords(ws);
    InheritedNotOwn(Lower(ws[1]));
  }

  /** No inherited member is one of the own keys. */
  lemma InheritedNotOwn(key: string)
    requires InheritedKey(key)
    ensures LookupAlias(key).None?
  {
  }

  /** Apart from the inherited keys, the code as written and the corrected lookup agree. */
  lemma AsWrittenAgreesElsewhere(input: Input)
    requires Tokens(input).Some? && |Tokens(input).value| >= 2 ==> !InheritedKey(Lower(Tokens(input).value[1]))
    ensures ParseAsWritten(input).None? <==> Parse(input).None?
    ensures Parse(input).Some? ==>
      ParseAsWritten(input).value == ParsedAsWritten(Alias(Parse(input).value.cmd), Parse(input).value.args)
  {
  }
}
