/** The token rules (range_scanner.l). */
module Scanner {
  import opened Text
  import opened NodeRange
  import opened Grammar

  predicate WordStart(c: char) {
    IsLetter(c) || IsDigit(c) || c == '_' || c == '.' || c == ':'
  }

  predicate WordChar(c: char) {
    WordStart(c) || c == '-'
  }

  predicate IsSymbol(c: char) {
    c in "-&,(){}^#%@*!?;"
  }

  /** A host name or printed range: what one of the two word rules takes as a whole. */
  predicate IsWord(w: string) {
    |w| > 0 && WordStart(w[0]) && forall i :: 0 <= i < |w| ==> WordChar(w[i])
  }

  function WordLength(s: string): (n: nat)
    ensures n <= |s| && forall i :: 0 <= i < n ==> WordChar(s[i])
    ensures n < |s| ==> !WordChar(s[n])
  {
    if s == "" || !WordChar(s[0]) then 0 else 1 + WordLength(s[1..])
  }

  /** The token of a word; one-character words are never tried as a range. */
  function WordToken(w: string): Token {
    if |w| < 2 then Literal(w)
    else
      match RangepartsFromHostname(w)
      case Some(parts) => Parts(parts)
      case None => Literal(w)
  }

  /** Inside /.../, q(...), '...' or "...": the unescaped text and what follows the closing
      delimiter, or None when the input ends first. */
  function Delimited(s: string, stop: char): (r: Option<(string, string)>)
    ensures r.Some? ==> |r.value.1| < |s|
  {
    if s == "" then None
    else if s[0] == stop then Some(("", s[1..]))
    else
      var escaped := s[0] == '\\';
      if escaped && |s| == 1 then None
      else
        var r := Delimited(if escaped then s[2..] else s[1..], stop);
        var text := if !escaped then [s[0]]
                    else if stop == '/' && s[1] != '/' && s[1] != '\\' then ['\\', s[1]]
                    else [s[1]];
        if r.None? then None else Some((text + r.value.0, r.value.1))
  }

  /** The tokens of the text. A character no rule matches is dropped, as flex does, and an
      unclosed delimiter ends the input. */
  function Scan(s: string): seq<Token>
    decreases |s|
  {
    if s == "" then []
    else if s[0] == ' ' || s[0] == '\t' then Scan(s[1..])
    else if s[0] == '\n' then [Eol] + Scan(s[1..])
    else if s[0] == '/' then
      var r := Delimited(s[1..], '/');
      if r.None? then [] else [Regex(r.value.0)] + Scan(r.value.1)
    else if |s| > 1 && s[0] == 'q' && s[1] == '(' then
      var r := Delimited(s[2..], ')');
      if r.None? then [] else [NonRange(r.value.0)] + Scan(r.value.1)
    else if s[0] == '\'' || s[0] == '\"' then
      var r := Delimited(s[1..], s[0]);
      if r.None? then [] else [NonRange(r.value.0)] + Scan(r.value.1)
    else if WordStart(s[0]) then
      var n := WordLength(s);
      [WordToken(s[..n])] + Scan(s[n..])
    else if IsSymbol(s[0]) then [Sym(s[0])] + Scan(s[1..])
    else Scan(s[1..])
  }

  /** Longest match: a word followed by a character that no word holds is one token; only q before
      an opening parenthesis begins a quoted literal instead. */
  lemma ScanWord(w: string, rest: string)
    requires IsWord(w)
    requires rest != "" ==> !WordChar(rest[0]) && (w == "q" ==> rest[0] != '(')
    ensures Scan(w + rest) == [WordToken(w)] + Scan(rest)
  {
    var s := w + rest;
    var n := WordLength(s);
    assert n == |w| by {
      assert forall i :: 0 <= i < |w| ==> s[i] == w[i];
      assert |w| < |s| ==> s[|w|] == rest[0];
    }
    assert s[..n] == w && s[n..] == rest;
  }

  lemma ScanParen(s: string)
    requires s != "" && (s[0] == '(' || s[0] == ')')
    ensures Scan(s) == [Sym(s[0])] + Scan(s[1..])
  {
  }

  lemma ScanComma(rest: string)
    ensures Scan("," + rest) == [Sym(',')] + Scan(rest)
  {
    assert ("," + rest)[1..] == rest;
  }

  /** The word characters: letters, digits, '_', '.' and ':', and after the first also '-'. */
  lemma ScanHost(w: string, rest: string)
    requires w != "" && w[0] != '-'
    requires forall i :: 0 <= i < |w| ==>
               'a' <= w[i] <= 'z' || 'A' <= w[i] <= 'Z' || '0' <= w[i] <= '9' || w[i] in "_.:-"
    requires rest != "" ==> rest[0] in " \t\n&,){}^#%@*!?;/"
    ensures Scan(w + rest) == [WordToken(w)] + Scan(rest)
  {
    ScanWord(w, rest);
  }

  /** Each operator is a token of its own. */
  lemma ScanSymbol(c: char, rest: string)
    requires c in "-&,(){}^#%@*!?;"
    ensures Scan([c] + rest) == [Sym(c)] + Scan(rest)
  {
    hide Delimited, WordLength, WordToken, WordStart, IsSymbol;
    SymbolOnly(c);
    assert ([c] + rest)[1..] == rest;
  }

  lemma SymbolOnly(c: char)
    requires c in "-&,(){}^#%@*!?;"
    ensures IsSymbol(c) && !WordStart(c) && c !in " \t\n/q'\""
  {
  }

  /** Blanks are skipped, and a line end is a token. */
  lemma ScanBlank(rest: string)
    ensures Scan(" " + rest) == Scan(rest) && Scan("\t" + rest) == Scan(rest)
    ensures Scan("\n" + rest) == [Eol] + Scan(rest)
  {
    hide Delimited, WordLength, WordToken, WordStart, IsSymbol;
    assert (" " + rest)[1..] == rest && ("\t" + rest)[1..] == rest && ("\n" + rest)[1..] == rest;
  }

  lemma {:induction false} DelimitedText(text: string, stop: char, rest: string)
    requires forall i :: 0 <= i < |text| ==> text[i] != stop && text[i] != '\\'
    ensures Delimited(text + [stop] + rest, stop) == Some((text, rest))
    ensures Delimited(text, stop) == None
  {
    var s := text + [stop] + rest;
    if text == "" {
      assert s[1..] == rest;
    } else {
      DelimitedText(text[1..], stop, rest);
      assert s[1..] == text[1..] + [stop] + rest;
      assert text == [text[0]] + text[1..];
    }
  }

  /** A backslash takes the next character as it is; in a regular expression the backslash stays,
      unless it stands before a slash or another backslash. */
  lemma DelimitedEscape(c: char, s: string, stop: char)
    requires stop != '\\'
    ensures Delimited(['\\', c] + s, stop)
         == match Delimited(s, stop)
            case None => None
            case Some((text, rest)) =>
              Some((if stop == '/' && c != '/' && c != '\\' then ['\\', c] + text else [c] + text, rest))
  {
    assert (['\\', c] + s)[2..] == s;
  }

  /** Between slashes stands a regular expression. */
  lemma ScanRegex(text: string, rest: string)
    requires '\\' !in text && '/' !in text
    ensures Scan("/" + text + "/" + rest) == [Regex(text)] + Scan(rest)
  {
    hide Delimited, WordLength, WordToken, WordStart, IsSymbol;
    DelimitedText(text, '/', rest);
    assert ("/" + text + "/" + rest)[1..] == text + "/" + rest;
  }

  /** In q(...), '...' or "..." stands a quoted text. */
  lemma ScanQuoted(text: string, rest: string)
    requires '\\' !in text
    ensures ')' !in text ==> Scan("q(" + text + ")" + rest) == [NonRange(text)] + Scan(rest)
    ensures '\'' !in text ==> Scan("'" + text + "'" + rest) == [NonRange(text)] + Scan(rest)
    ensures '\"' !in text ==> Scan("\"" + text + "\"" + rest) == [NonRange(text)] + Scan(rest)
  {
    hide Scan;
    if ')' !in text {
      ScanQ(text, rest);
    }
    if '\'' !in text {
      ScanMarked(text, '\'', rest);
    }
    if '\"' !in text {
      ScanMarked(text, '\"', rest);
    }
  }

  lemma ScanQ(text: string, rest: string)
    requires '\\' !in text && ')' !in text
    ensures Scan("q(" + text + ")" + rest) == [NonRange(text)] + Scan(rest)
  {
    hide Delimited, WordLength, WordToken, WordStart, IsSymbol;
    DelimitedText(text, ')', rest);
    assert ("q(" + text + ")" + rest)[2..] == text + ")" + rest;
  }

  lemma ScanMarked(text: string, mark: char, rest: string)
    requires (mark == '\'' || mark == '\"') && '\\' !in text && mark !in text
    ensures Scan([mark] + text + [mark] + rest) == [NonRange(text)] + Scan(rest)
  {
    hide Delimited, WordLength, WordToken, WordStart, IsSymbol;
    DelimitedText(text, mark, rest);
    assert ([mark] + text + [mark] + rest)[1..] == text + [mark] + rest;
  }

  /** Each word with a comma after it. */
  function WithCommas(words: seq<string>): string {
    if words == [] then ""
    else WithCommas(words[..|words| - 1]) + words[|words| - 1] + ","
  }

  function CommaTokens(words: seq<string>): seq<Token> {
    if words == [] then []
    else CommaTokens(words[..|words| - 1]) + [WordToken(words[|words| - 1]), Sym(',')]
  }

  lemma {:induction false} ScanCommas(words: seq<string>, rest: string)
    requires forall w :: w in words ==> IsWord(w)
    ensures Scan(WithCommas(words) + rest) == CommaTokens(words) + Scan(rest)
  {
    hide Scan, WordToken, WordLength;
    if words == [] {
      assert WithCommas(words) + rest == rest;
    } else {
      var n := |words| - 1;
      var tail := "," + rest;
      assert WithCommas(words) + rest == WithCommas(words[..n]) + (words[n] + tail);
      ScanCommas(words[..n], words[n] + tail);
      ScanWord(words[n], tail);
      ScanComma(rest);
    }
  }
}
