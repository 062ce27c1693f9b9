/** `shellQuote` of apps/central/src/installer-security.js, against the quoting rules of
    sections 2.2.1 and 2.2.2 of the POSIX Shell Command Language. */
module ShellQuote {
  import opened Optional

  // Every single quote closes the quotation, stands escaped, and opens the quotation again.
  function Escape(s: string): string {
    if s == [] then [] else (if s[0] == '\'' then ['\'', '\\', '\'', '\''] else [s[0]]) + Escape(s[1..])
  }

  function Quote(s: string): string { ['\''] + Escape(s) + ['\''] }

  // ---------------------------------------------------------------- the shell's reader

  // The characters that end a word or mean something else to the shell when they are not quoted.
  predicate IsMeta(c: char) {
    c in {' ', '\t', '\n', '|', '&', ';', '<', '>', '(', ')', '$', '`', '"', '*', '?', '[', '#', '~', '%'}
  }

  // The word at the start of `s` after quote removal, and what follows it.  None: a quotation is
  // not closed, or a character comes up that is not literal.
  function ReadWord(s: string): Option<(string, string)>
    decreases |s|, 1
  {
    if s == [] || s[0] in {' ', '\t', '\n', ';'} then Some(([], s))
    else if s[0] == '\'' then ReadQuoted(s[1..])
    else if s[0] == '\\' then
      if |s| == 1 then None
      else if s[1] == '\n' then ReadWord(s[2..])  // a continued line
      else Literal(s[1], ReadWord(s[2..]))
    else if IsMeta(s[0]) then None
    else Literal(s[0], ReadWord(s[1..]))
  }

  function ReadQuoted(s: string): Option<(string, string)>
    decreases |s|, 2
  {
    if s == [] then None
    else if s[0] == '\'' then ReadWord(s[1..])
    else Literal(s[0], ReadQuoted(s[1..]))
  }

  function Literal(c: char, r: Option<(string, string)>): Option<(string, string)> {
    if r.None? then None else Some(([c] + r.value.0, r.value.1))
  }

  // ---------------------------------------------------------------- quoting is undone by reading

  predicate Ends(rest: string) { rest == [] || rest[0] in {' ', '\t', '\n', ';'} }

  lemma {:induction false} EscapedReads(s: string, rest: string)
    requires Ends(rest)
    ensures ReadQuoted(Escape(s) + (['\''] + rest)) == Some((s, rest))
  {
    if s == [] {
      assert Escape(s) + (['\''] + rest) == ['\''] + rest;
      assert (['\''] + rest)[1..] == rest;
    } else {
      EscapedReads(s[1..], rest);
      var more := Escape(s[1..]) + (['\''] + rest);
      assert s == [s[0]] + s[1..];
      if s[0] == '\'' {
        EscapedQuote(more);
        assert Escape(s) + (['\''] + rest) == ['\'', '\\', '\'', '\''] + more;
      } else {
        assert Escape(s) + (['\''] + rest) == [s[0]] + more;
        assert ([s[0]] + more)[1..] == more;
      }
    }
  }

  // Inside a quotation the four characters read as one quote.
  lemma EscapedQuote(more: string)
    ensures ReadQuoted(['\'', '\\', '\'', '\''] + more) == Literal('\'', ReadQuoted(more))
  {
    var s, t, u := ['\'', '\\', '\'', '\''] + more, ['\\', '\'', '\''] + more, ['\''] + more;
    assert s[1..] == t && t[2..] == u && u[1..] == more;
    assert ReadWord(u) == ReadQuoted(more);
    assert ReadWord(t) == Literal('\'', ReadWord(u));
    assert ReadQuoted(s) == ReadWord(t);
  }

  // For every text: the shell reads the quoted form as one word, the text itself, and leaves the
  // rest of the line alone.
  lemma QuoteReadsBack(s: string, rest: string)
    requires Ends(rest)
    ensures ReadWord(Quote(s) + rest) == Some((s, rest))
  {
    EscapedReads(s, rest);
    assert (Quote(s) + rest)[1..] == Escape(s) + (['\''] + rest);
  }

  predicate IsPlain(c: char) { !IsMeta(c) && c != '\'' && c != '\\' }

  lemma PlainReadsOne(c: char, word: string, rest: string, more: string)
    requires IsPlain(c) && ReadWord(more) == Some((word, rest))
    ensures ReadWord([c] + more) == Some(([c] + word, rest))
  {
    assert ([c] + more)[1..] == more;
  }

  lemma {:induction false} PlainReads(key: string, word: string, rest: string, more: string)
    requires (forall c :: c in key ==> IsPlain(c)) && ReadWord(more) == Some((word, rest))
    ensures ReadWord(key + more) == Some((key + word, rest))
  {
    if key == [] {
      assert key + more == more && key + word == word;
    } else {
      assert forall c :: c in key[1..] ==> c in key;
      PlainReads(key[1..], word, rest, more);
      assert key[0] in key;
      PlainReadsOne(key[0], key[1..] + word, rest, key[1..] + more);
      assert key + more == [key[0]] + (key[1..] + more);
      assert key + word == [key[0]] + (key[1..] + word);
    }
  }

  // An assignment KEY='...' of the installation command hands over exactly the value.
  lemma AssignmentReadsBack(key: string, value: string, rest: string)
    requires (forall c :: c in key ==> IsPlain(c)) && Ends(rest)
    ensures ReadWord(key + ['='] + (Quote(value) + rest)) == Some((key + ['='] + value, rest))
  {
    QuoteReadsBack(value, rest);
    PlainReads(key + ['='], value, rest, Quote(value) + rest);
  }
}
