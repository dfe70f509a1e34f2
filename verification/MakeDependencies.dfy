/** Decoding the make rule in which a compiler lists the files it read. */
module MakeDependencies {
  import opened Results

  /** Python's notion of whitespace in a string. */
  predicate IsSpace(c: char)
  {
    var n := c as int;
    || 0x09 <= n <= 0x0D || 0x1C <= n <= 0x20 || n == 0x85 || n == 0xA0 || n == 0x1680
    || 0x2000 <= n <= 0x200A || n == 0x2028 || n == 0x2029 || n == 0x202F || n == 0x205F || n == 0x3000
  }

  lemma SpacesAre(c: char)
    ensures IsSpace(c) <==> c in {
      '\U{0009}', '\U{000A}', '\U{000B}', '\U{000C}', '\U{000D}', '\U{001C}', '\U{001D}', '\U{001E}', '\U{001F}',
      '\U{0020}', '\U{0085}', '\U{00A0}', '\U{1680}', '\U{2000}', '\U{2001}', '\U{2002}', '\U{2003}', '\U{2004}',
      '\U{2005}', '\U{2006}', '\U{2007}', '\U{2008}', '\U{2009}', '\U{200A}', '\U{2028}', '\U{2029}', '\U{202F}',
      '\U{205F}', '\U{3000}' }
  {
  }

  /** Backslash-newline disappears wherever it stands. */
  function JoinLines(text: string): string
  {
    if text == [] then []
    else if |text| > 1 && text[0] == '\\' && text[1] == '\n' then JoinLines(text[2..])
    else [text[0]] + JoinLines(text[1..])
  }

  function Flush(current: string): seq<string>
  {
    if current == [] then [] else [current]
  }

  /** The words of a text, the first of which begins with current. */
  function Words(text: string, current: string): seq<string>
  {
    if text == [] then Flush(current)
    else if text[0] == '\\' && |text| > 1 then Words(text[2..], current + [text[1]])
    else if text[0] == '$' && |text| > 1 && text[1] == '$' then Words(text[2..], current + ['$'])
    else if IsSpace(text[0]) then Flush(current) + Words(text[1..], [])
    else Words(text[1..], current + [text[0]])
  }

  const TARGET := "audit:"

  function Decode(text: string): Result<seq<string>>
  {
    var joined := JoinLines(text);
    if TARGET <= joined then Ok(Words(joined[|TARGET|..], [])) else Err("unexpected compiler dependency target")
  }

  method DependencyPaths(text: string) returns (result: Result<seq<string>>)
    ensures result == Decode(text)
  {
    var joined := JoinLines(text);
    if !(TARGET <= joined) {
      return Err("unexpected compiler dependency target");
    }
    var rest := joined[|TARGET|..];
    var words: seq<string>, current: string, index := [], [], 0;
    while index < |rest|
      invariant 0 <= index <= |rest|
      invariant words + Words(rest[index..], current) == Words(rest, [])
    {
      var c := rest[index];
      assert rest[index..][1..] == rest[index + 1..];
      if c == '\\' && index + 1 < |rest| {
        assert rest[index..][2..] == rest[index + 2..];
        index := index + 1;
        current := current + [rest[index]];
      } else if c == '$' && index + 1 < |rest| && rest[index + 1] == '$' {
        assert rest[index..][2..] == rest[index + 2..];
        current := current + ['$'];
        index := index + 1;
      } else if IsSpace(c) {
        if current != [] {
          words := words + [current];
          current := [];
        }
      } else {
        current := current + [c];
      }
      index := index + 1;
    }
    assert rest[index..] == [];
    assert words + Flush(current) == if current == [] then words else words + [current];
    if current != [] {
      words := words + [current];
    }
    return Ok(words);
  }

  // The other direction: what a compiler writes.

  /** A character of a path, whitespace between words, or a line continuation. */
  datatype Token = Char(c: char) | Gap(c: char) | Continuation

  ghost predicate Writable(t: Token)
  {
    match t
    case Char(c) => c != '\\' && c != '\n'
    case Gap(c) => IsSpace(c)
    case Continuation => true
  }

  ghost function EncodeToken(t: Token): string
  {
    match t
    case Char(c) => if c == '$' then "$$" else if IsSpace(c) || c == '#' then ['\\', c] else [c]
    case Gap(c) => [c]
    case Continuation => "\\\n"
  }

  /** Only whitespace, '#' and '$' are escaped. */
  lemma OthersArePlain(c: char)
    ensures EncodeToken(Char(c)) == [c] <==> !IsSpace(c) && c != '#' && c != '$'
  {
  }

  ghost function Encode(tokens: seq<Token>): string
  {
    if tokens == [] then [] else EncodeToken(tokens[0]) + Encode(tokens[1..])
  }

  /** What the tokens mean: runs of characters, separated by gaps. */
  ghost function Meaning(tokens: seq<Token>, current: string): seq<string>
  {
    if tokens == [] then Flush(current)
    else match tokens[0]
      case Char(c) => Meaning(tokens[1..], current + [c])
      case Gap(_) => Flush(current) + Meaning(tokens[1..], [])
      case Continuation => Meaning(tokens[1..], current)
  }

  ghost function DropContinuations(tokens: seq<Token>): (rest: seq<Token>)
    ensures forall t | t in rest :: t in tokens && !t.Continuation?
  {
    if tokens == [] then []
    else (if tokens[0].Continuation? then [] else [tokens[0]]) + DropContinuations(tokens[1..])
  }

  lemma {:induction false} JoiningPlainText(plain: string, text: string)
    requires '\\' !in plain
    ensures JoinLines(plain + text) == plain + JoinLines(text)
  {
    if plain == [] {
      assert plain + text == text;
    } else {
      assert (plain + text)[1..] == plain[1..] + text;
      JoiningPlainText(plain[1..], text);
    }
  }

  lemma JoiningToken(t: Token, text: string)
    requires Writable(t)
    ensures JoinLines(EncodeToken(t) + text) == (if t.Continuation? then [] else EncodeToken(t)) + JoinLines(text)
  {
    var code := EncodeToken(t);
    if t.Continuation? {
      assert (code + text)[2..] == text && [] + JoinLines(text) == JoinLines(text);
    } else if code[0] == '\\' {
      assert (code + text)[1..] == [t.c] + text;
      JoiningPlainText([t.c], text);
    } else {
      JoiningPlainText(code, text);
    }
  }

  lemma {:induction false} JoiningDropsContinuations(tokens: seq<Token>)
    requires forall t | t in tokens :: Writable(t)
    ensures JoinLines(Encode(tokens)) == Encode(DropContinuations(tokens))
  {
    if tokens == [] {
    } else {
      var t, rest := tokens[0], tokens[1..];
      assert Writable(t);
      JoiningToken(t, Encode(rest));
      JoiningDropsContinuations(rest);
      if t.Continuation? {
        assert DropContinuations(tokens) == DropContinuations(rest);
      } else {
        assert DropContinuations(tokens)[1..] == DropContinuations(rest);
      }
    }
  }

  lemma {:induction false} WordsOfEncoding(tokens: seq<Token>, current: string)
    requires forall t | t in tokens :: Writable(t) && !t.Continuation?
    ensures Words(Encode(tokens), current) == Meaning(tokens, current)
  {
    if tokens == [] {
    } else {
      var t, rest := tokens[0], tokens[1..];
      var code, text := EncodeToken(t), Encode(rest);
      assert Writable(t) && !t.Continuation?;
      assert (code + text)[|code|..] == text;
      WordsOfEncoding(rest, match t case Char(c) => current + [c] case Gap(_) => []);
    }
  }

  lemma {:induction false} ContinuationsMeanNothing(tokens: seq<Token>, current: string)
    ensures Meaning(DropContinuations(tokens), current) == Meaning(tokens, current)
  {
    if tokens == [] {
    } else {
      var rest := tokens[1..];
      if tokens[0].Continuation? {
        assert DropContinuations(tokens) == DropContinuations(rest);
        ContinuationsMeanNothing(rest, current);
      } else {
        assert DropContinuations(tokens)[1..] == DropContinuations(rest);
        ContinuationsMeanNothing(rest, match tokens[0] case Char(c) => current + [c] case Gap(_) => []);
      }
    }
  }

  /** Whatever is written is read back: any characters but backslash and newline, any whitespace
      between words, and continuations anywhere, even inside a word. */
  lemma DecodeEncode(tokens: seq<Token>)
    requires forall t | t in tokens :: Writable(t)
    ensures Decode(TARGET + Encode(tokens)) == Ok(Meaning(tokens, []))
  {
    var kept := DropContinuations(tokens);
    JoiningPlainText(TARGET, Encode(tokens));
    JoiningDropsContinuations(tokens);
    assert (TARGET + Encode(kept))[|TARGET|..] == Encode(kept);
    WordsOfEncoding(kept, []);
    ContinuationsMeanNothing(tokens, []);
  }

  // Lists of paths.

  ghost function Chars(path: string): seq<Token>
  {
    seq(|path|, i requires 0 <= i < |path| => Char(path[i]))
  }

  ghost predicate Separator(tokens: seq<Token>)
  {
    forall t | t in tokens :: !t.Char? && Writable(t)
  }

  ghost predicate Separates(tokens: seq<Token>)
  {
    Separator(tokens) && exists t :: t in tokens && t.Gap?
  }

  /** A separator before, between and after the paths. */
  ghost function Layout(paths: seq<string>, separators: seq<seq<Token>>): seq<Token>
    requires |separators| == |paths| + 1
  {
    separators[0] + if paths == [] then [] else Chars(paths[0]) + Layout(paths[1..], separators[1..])
  }

  lemma {:induction false} SeparatorMeaning(tokens: seq<Token>, rest: seq<Token>, current: string)
    requires Separator(tokens)
    ensures Meaning(tokens + rest, current) ==
            if Separates(tokens) then Flush(current) + Meaning(rest, []) else Meaning(rest, current)
  {
    if tokens == [] {
      assert tokens + rest == rest;
    } else {
      var t := tokens[0];
      assert (tokens + rest)[1..] == tokens[1..] + rest && tokens == [t] + tokens[1..];
      SeparatorMeaning(tokens[1..], rest, if t.Gap? then [] else current);
      assert t.Gap? || t.Continuation?;
      assert Separates(tokens) <==> t.Gap? || Separates(tokens[1..]);
    }
  }

  lemma {:induction false} CharsMeaning(path: string, rest: seq<Token>, current: string)
    ensures Meaning(Chars(path) + rest, current) == Meaning(rest, current + path)
  {
    if path == [] {
      assert Chars(path) + rest == rest && current + path == current;
    } else {
      assert (Chars(path) + rest)[1..] == Chars(path[1..]) + rest;
      CharsMeaning(path[1..], rest, current + [path[0]]);
      assert current + [path[0]] + path[1..] == current + path;
    }
  }

  ghost predicate WellSeparated(paths: seq<string>, separators: seq<seq<Token>>)
  {
    && |separators| == |paths| + 1
    && (forall i | 0 <= i < |separators| :: Separator(separators[i]))
    && (forall i | 0 < i < |paths| :: Separates(separators[i]))
  }

  lemma {:induction false} LayoutMeaning(paths: seq<string>, separators: seq<seq<Token>>, current: string)
    requires WellSeparated(paths, separators) && [] !in paths
    requires current == [] || paths == [] || Separates(separators[0])
    ensures Meaning(Layout(paths, separators), current) == Flush(current) + paths
  {
    if paths == [] {
      assert Layout(paths, separators) == separators[0] + [];
      SeparatorMeaning(separators[0], [], current);
    } else {
      var rest := Layout(paths[1..], separators[1..]);
      SeparatorMeaning(separators[0], Chars(paths[0]) + rest, current);
      CharsMeaning(paths[0], rest, []);
      assert [] + paths[0] == paths[0] && paths[0] in paths;
      RestIsWellSeparated(paths, separators);
      LayoutMeaning(paths[1..], separators[1..], paths[0]);
      assert paths == [paths[0]] + paths[1..];
    }
  }

  lemma RestIsWellSeparated(paths: seq<string>, separators: seq<seq<Token>>)
    requires WellSeparated(paths, separators) && paths != []
    ensures WellSeparated(paths[1..], separators[1..])
    ensures paths[1..] == [] || Separates(separators[1..][0])
  {
    assert forall i | 0 <= i < |paths| :: separators[1..][i] == separators[i + 1];
  }

  lemma {:induction false} LayoutIsWritable(paths: seq<string>, separators: seq<seq<Token>>)
    requires WellSeparated(paths, separators)
    requires forall p | p in paths :: '\\' !in p && '\n' !in p
    ensures forall t | t in Layout(paths, separators) :: Writable(t)
  {
    if paths == [] {
    } else {
      RestIsWellSeparated(paths, separators);
      LayoutIsWritable(paths[1..], separators[1..]);
      forall t | t in Chars(paths[0]) ensures Writable(t) {
        var i :| 0 <= i < |paths[0]| && Chars(paths[0])[i] == t;
        assert paths[0] in paths && paths[0][i] in paths[0];
      }
    }
  }

  /** Decoding a written list of paths gives back exactly those paths. */
  lemma PathListRoundTrip(paths: seq<string>, separators: seq<seq<Token>>)
    requires WellSeparated(paths, separators)
    requires forall p | p in paths :: p != [] && '\\' !in p && '\n' !in p
    ensures Decode(TARGET + Encode(Layout(paths, separators))) == Ok(paths)
  {
    var tokens := Layout(paths, separators);
    LayoutIsWritable(paths, separators);
    LayoutMeaning(paths, separators, []);
    assert Flush([]) + paths == paths;
    DecodeEncode(tokens);
  }

  // What the decoder reads in any text at all.

  /** The text has no backslash-newline. */
  ghost predicate Unbroken(text: string)
  {
    forall i | 0 <= i < |text| - 1 :: text[i] == '\\' ==> text[i + 1] != '\n'
  }

  /** The pieces with a backslash-newline after each but the last. */
  ghost function Broken(pieces: seq<string>): string
    requires pieces != []
  {
    if |pieces| == 1 then pieces[0] else pieces[0] + "\\\n" + Broken(pieces[1..])
  }

  ghost function Whole(pieces: seq<string>): string
  {
    if pieces == [] then [] else pieces[0] + Whole(pieces[1..])
  }

  lemma TailIsUnbroken(text: string)
    requires text != [] && Unbroken(text)
    ensures Unbroken(text[1..])
  {
    var tail := text[1..];
    forall i | 0 <= i < |tail| - 1 ensures tail[i] == '\\' ==> tail[i + 1] != '\n' {
      var j := i + 1;
      assert tail[i] == text[j] && tail[i + 1] == text[j + 1];
    }
  }

  lemma {:induction false} JoiningUnbroken(piece: string, rest: string)
    requires Unbroken(piece) && (piece != [] && rest != [] && piece[|piece| - 1] == '\\' ==> rest[0] != '\n')
    ensures JoinLines(piece + rest) == piece + JoinLines(rest)
  {
    if piece == [] {
      assert piece + rest == rest;
    } else {
      var text, tail := piece + rest, piece[1..];
      assert text[1..] == tail + rest;
      assert |tail| > 0 ==> text[1] == piece[0 + 1];
      TailIsUnbroken(piece);
      JoiningUnbroken(tail, rest);
    }
  }

  /** Joining lines puts the pieces together. */
  lemma {:induction false} JoiningMakesWhole(pieces: seq<string>)
    requires pieces != [] && forall p | p in pieces :: Unbroken(p)
    ensures JoinLines(Broken(pieces)) == Whole(pieces)
  {
    assert pieces[0] in pieces;
    if |pieces| == 1 {
      JoiningUnbroken(pieces[0], []);
      assert pieces[0] + [] == pieces[0] && pieces[1..] == [];
    } else {
      var rest := Broken(pieces[1..]);
      var more := "\\\n" + rest;
      JoiningUnbroken(pieces[0], more);
      assert more[2..] == rest;
      assert Broken(pieces) == pieces[0] + more;
      JoiningMakesWhole(pieces[1..]);
    }
  }

  lemma {:induction false} TextHasPieces(text: string) returns (pieces: seq<string>)
    ensures pieces != [] && (forall p | p in pieces :: Unbroken(p)) && Broken(pieces) == text
  {
    if text == [] {
      pieces := [[]];
    } else if |text| > 1 && text[0] == '\\' && text[1] == '\n' {
      var rest := TextHasPieces(text[2..]);
      pieces := [[]] + rest;
      assert pieces[1..] == rest;
    } else {
      var rest := TextHasPieces(text[1..]);
      var first := [text[0]] + rest[0];
      pieces := [first] + rest[1..];
      assert pieces[1..] == rest[1..];
      FirstIsUnbroken(text, rest);
    }
  }

  lemma FirstIsUnbroken(text: string, rest: seq<string>)
    requires text != [] && rest != [] && (forall p | p in rest :: Unbroken(p)) && Broken(rest) == text[1..]
    requires !(|text| > 1 && text[0] == '\\' && text[1] == '\n')
    ensures Unbroken([text[0]] + rest[0])
  {
    var first := [text[0]] + rest[0];
    assert rest[0] in rest;
    if rest[0] != [] {
      assert Broken(rest)[0] == rest[0][0] && text[1] == text[1..][0];
    }
    forall i | 0 <= i < |first| - 1 ensures first[i] == '\\' ==> first[i + 1] != '\n' {
      if i > 0 {
        var j := i - 1;
        assert first[i] == rest[0][j] && first[i + 1] == rest[0][j + 1];
      }
    }
  }

  /** An escaped character, an escaped dollar sign, whitespace, or a character that stands for itself. */
  datatype Lexeme = Escaped(c: char) | Dollar | Blank(c: char) | Bare(c: char)

  ghost function Spelling(l: Lexeme): string
  {
    match l
    case Escaped(c) => ['\\', c]
    case Dollar => ['$', '$']
    case Blank(c) => [c]
    case Bare(c) => [c]
  }

  ghost function Spell(ls: seq<Lexeme>): string
  {
    if ls == [] then [] else Spelling(ls[0]) + Spell(ls[1..])
  }

  /** Whitespace is blank, a bare backslash can only be the last character, and a bare dollar sign stands
      before no other. */
  ghost predicate Proper(ls: seq<Lexeme>)
  {
    forall i | 0 <= i < |ls| ::
      match ls[i]
      case Escaped(_) => true
      case Dollar => true
      case Blank(c) => IsSpace(c)
      case Bare(c) =>
        && !IsSpace(c) && (c == '\\' ==> i == |ls| - 1)
        && (c == '$' ==> forall j | 0 <= j < |ls| && j == i + 1 :: ls[j] != Dollar && ls[j] != Bare('$'))
  }

  /** The words spelled, the first of which begins with current. */
  ghost function Said(ls: seq<Lexeme>, current: string): seq<string>
  {
    if ls == [] then (if current == [] then [] else [current])
    else match ls[0]
      case Escaped(c) => Said(ls[1..], current + [c])
      case Dollar => Said(ls[1..], current + ['$'])
      case Blank(_) => (if current == [] then [] else [current]) + Said(ls[1..], [])
      case Bare(c) => Said(ls[1..], current + [c])
  }

  lemma RestIsProper(ls: seq<Lexeme>)
    requires ls != [] && Proper(ls)
    ensures Proper(ls[1..])
  {
    var rest := ls[1..];
    assert forall i | 0 <= i < |rest| :: rest[i] == ls[i + 1];
  }

  lemma {:induction false} WordsAreSaid(ls: seq<Lexeme>, current: string)
    requires Proper(ls)
    ensures Words(Spell(ls), current) == Said(ls, current)
  {
    if ls == [] {
    } else {
      var l, rest := ls[0], ls[1..];
      var text := Spell(ls);
      RestIsProper(ls);
      assert text[|Spelling(l)|..] == Spell(rest);
      if rest != [] {
        assert rest[0] == ls[1] && Spell(rest)[0] == Spelling(rest[0])[0];
      }
      assert |text| > |Spelling(l)| ==> rest != [] && text[|Spelling(l)|] == Spell(rest)[0];
      WordsAreSaid(rest, match l case Escaped(c) => current + [c] case Dollar => current + ['$'] case Blank(_) => [] case Bare(c) => current + [c]);
    }
  }

  lemma {:induction false} TextHasLexemes(text: string) returns (ls: seq<Lexeme>)
    ensures Proper(ls) && Spell(ls) == text
  {
    if text == [] {
      ls := [];
    } else {
      var first := if text[0] == '\\' && |text| > 1 then Escaped(text[1])
        else if text[0] == '$' && |text| > 1 && text[1] == '$' then Dollar
        else if IsSpace(text[0]) then Blank(text[0]) else Bare(text[0]);
      var rest := TextHasLexemes(text[|Spelling(first)|..]);
      ls := [first] + rest;
      assert ls[1..] == rest;
      if rest != [] {
        assert Spell(rest)[0] == Spelling(rest[0])[0];
      }
      FirstIsProper(text, first, rest);
    }
  }

  lemma FirstIsProper(text: string, first: Lexeme, rest: seq<Lexeme>)
    requires text != [] && Proper(rest) && text == Spelling(first) + Spell(rest)
    requires first.Blank? ==> IsSpace(first.c)
    requires first.Bare? ==> !IsSpace(first.c) && (first.c == '\\' ==> |text| == 1)
    requires first == Bare('$') && |text| > 1 ==> text[1] != '$'
    ensures Proper([first] + rest)
  {
    var ls := [first] + rest;
    assert forall i | 0 < i < |ls| :: ls[i] == rest[i - 1];
    if rest != [] {
      assert Spell(rest)[0] == Spelling(rest[0])[0] && |Spell(rest)| > 0;
      assert ls[1] == rest[0];
    }
  }

  /** Whatever its line breaks, a text that spells lexemes after the target is read as the words they say... */
  lemma DecodeReads(pieces: seq<string>, ls: seq<Lexeme>)
    requires pieces != [] && (forall p | p in pieces :: Unbroken(p)) && Proper(ls)
    requires Whole(pieces) == "audit:" + Spell(ls)
    ensures Decode(Broken(pieces)) == Ok(Said(ls, []))
  {
    JoiningMakesWhole(pieces);
    assert Whole(pieces)[|TARGET|..] == Spell(ls);
    WordsAreSaid(ls, []);
  }

  /** ...and every text does, unless it has another target and is refused. */
  lemma EveryTextIsRead(text: string) returns (pieces: seq<string>, ls: seq<Lexeme>)
    ensures pieces != [] && (forall p | p in pieces :: Unbroken(p)) && Broken(pieces) == text && Proper(ls)
    ensures Decode(text).Ok? <==> "audit:" <= Whole(pieces)
    ensures Decode(text).Ok? ==> Whole(pieces) == "audit:" + Spell(ls) && Decode(text) == Ok(Said(ls, []))
  {
    pieces := TextHasPieces(text);
    JoiningMakesWhole(pieces);
    ls := [];
    if "audit:" <= Whole(pieces) {
      ls := TextHasLexemes(Whole(pieces)[|TARGET|..]);
      DecodeReads(pieces, ls);
    }
  }
}
