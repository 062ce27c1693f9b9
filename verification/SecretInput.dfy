/** services/camera-worker-go/secret_input.go: the secret URL leaves the ffmpeg command line and
    travels in an ffconcat document instead.  Go strings are modelled byte by byte, one char a
    byte; `url.Parse` is a parameter. */
module SecretInput {
  import opened Optional
  import opened Text
  import ShellQuote

  datatype Url = Url(scheme: string, host: string)

  type Parser = string -> Option<Url>

  const MAX_URL := 16 * 1024
  const MAX_VALUE := 4096

  const FFCONCAT := "ffconcat"
  const HEADER := FFCONCAT + [' '] + "version 1.0"
  const FILE := "file"
  const OPTION := "option"

  datatype Setting = Setting(name: string, value: string)

  // ---------------------------------------------------------------- the ffconcat document

  predicate Clean(s: string) { '\0' !in s && '\r' !in s && '\n' !in s }

  predicate IsNameChar(c: char) { 'a' <= c <= 'z' || 'A' <= c <= 'Z' || '0' <= c <= '9' || c == '_' }

  predicate GoodUrl(parse: Parser, url: string) {
    && url != "" && |url| <= MAX_URL && Clean(url)
    && parse(url).Some? && parse(url).value.host != ""
    && parse(url).value.scheme in {"rtsp", "rtsps", "http", "https"}
  }

  predicate GoodSetting(o: Setting) {
    && o.name != "" && o.value != "" && |o.value| <= MAX_VALUE && Clean(o.name) && Clean(o.value)
    && forall c :: c in o.name ==> IsNameChar(c)
  }

  function FileLine(url: string): string { FILE + [' '] + ShellQuote.Quote(url) }

  function SettingLine(o: Setting): string { OPTION + [' '] + (o.name + [' '] + ShellQuote.Escape(o.value)) }

  function SettingLines(options: seq<Setting>): (r: seq<string>)
    ensures |r| == |options| && forall k :: 0 <= k < |r| ==> r[k] == SettingLine(options[k])
  {
    seq(|options|, k requires 0 <= k < |options| => SettingLine(options[k]))
  }

  // The lines, each with its newline.
  function Written(lines: seq<string>): string { Join(lines + [[]], '\n') }

  function Document(parse: Parser, url: string, options: seq<Setting>): Option<string> {
    if GoodUrl(parse, url) && forall k :: 0 <= k < |options| ==> GoodSetting(options[k])
    then Some(Written([HEADER, FileLine(url)] + SettingLines(options)))
    else None
  }

  method ConcatDocument(parse: Parser, url: string, options: seq<Setting>) returns (r: Option<string>)
    ensures r == Document(parse, url, options)
  {
    if !GoodUrl(parse, url) { return None; }
    var document := HEADER + ['\n'] + (FileLine(url) + ['\n']);
    ghost var lines := [HEADER, FileLine(url)];
    WrittenTwo(HEADER, FileLine(url));
    assert lines == lines + SettingLines(options[..0]);
    for k := 0 to |options|
      invariant forall j :: 0 <= j < k ==> GoodSetting(options[j])
      invariant document == Written(lines + SettingLines(options[..k]))
    {
      if !GoodSetting(options[k]) { return None; }
      SettingLinesSnoc(lines, options, k);
      WrittenSnoc(lines + SettingLines(options[..k]), SettingLine(options[k]));
      document := document + SettingLine(options[k]) + ['\n'];
    }
    assert options[..|options|] == options;
    return Some(document);
  }

  // At most this long and not empty, on one line.
  ghost predicate IsLine(s: string, most: nat) {
    1 <= |s| <= most && forall c :: c in s ==> c != '\0' && c != '\r' && c != '\n'
  }

  // A URL of a camera: one line with a host and one of four schemes.
  ghost predicate IsCameraUrl(parse: Parser, url: string) {
    && IsLine(url, 16384) && parse(url).Some? && parse(url).value.host != ""
    && var scheme := parse(url).value.scheme;
       scheme == "rtsp" || scheme == "rtsps" || scheme == "http" || scheme == "https"
  }

  // An option of an input: a name of letters, digits and underscores, and a value on one line.
  ghost predicate IsOption(o: Setting) {
    && o.name != "" && IsLine(o.value, 4096)
    && forall c :: c in o.name ==> 'a' <= c <= 'z' || 'A' <= c <= 'Z' || '0' <= c <= '9' || c == '_'
  }

  lemma GoodUrlIff(parse: Parser, url: string)
    ensures GoodUrl(parse, url) <==> IsCameraUrl(parse, url)
  {}

  lemma GoodSettingIff(o: Setting)
    ensures GoodSetting(o) <==> IsOption(o)
  {}

  /** A document is written exactly for the URL of a camera and proper options. */
  lemma DocumentIff(parse: Parser, url: string, options: seq<Setting>)
    ensures Document(parse, url, options).Some? <==>
            IsCameraUrl(parse, url) && forall o :: o in options ==> IsOption(o)
  {
    GoodUrlIff(parse, url);
    forall o { GoodSettingIff(o); }
  }

  lemma SettingLinesSnoc(lines: seq<string>, options: seq<Setting>, k: nat)
    requires k < |options|
    ensures lines + SettingLines(options[..k + 1]) == lines + SettingLines(options[..k]) + [SettingLine(options[k])]
  {}

  lemma WrittenOne(line: string)
    ensures Written([]) == [] && Written([line]) == line + ['\n']
  {
    var empty: string := [];
    assert [] + [empty] == [empty];
    assert [line] + [empty] == [line, empty] && [line, empty][1..] == [empty];
    assert Join([empty], '\n') == empty;
  }

  lemma WrittenTwo(first: string, second: string)
    ensures Written([first, second]) == first + ['\n'] + (second + ['\n'])
  {
    WrittenOne(first);
    WrittenSnoc([first], second);
    assert [first] + [second] == [first, second];
  }

  lemma {:induction false} WrittenSnoc(lines: seq<string>, line: string)
    ensures Written(lines + [line]) == Written(lines) + line + ['\n']
  {
    if lines == [] {
      assert lines + [line] == [line];
      WrittenOne(line);
    } else {
      WrittenSnoc(lines[1..], line);
      assert (lines + [line] + [[]])[1..] == lines[1..] + [line] + [[]];
      assert (lines + [[]])[1..] == lines[1..] + [[]];
    }
  }

  // ---------------------------------------------------------------- FFmpeg's reader of the document

  predicate IsBlank(c: char) { c == ' ' || c == '\t' || c == '\r' || c == '\n' }

  function SkipBlanks(s: string): (r: string)
    ensures |r| <= |s| && (r == [] || !IsBlank(r[0]))
  {
    if s != [] && IsBlank(s[0]) then SkipBlanks(s[1..]) else s
  }

  function TrimBlanks(s: string): (r: string)
    ensures |r| <= |s|
  {
    if s != [] && IsBlank(s[|s| - 1]) then TrimBlanks(s[..|s| - 1]) else s
  }

  // The token rules of the FFmpeg utilities manual, section 2.1 "Quoting and escaping": a token
  // ends at a blank; '...' is literal; \c is c.  A quotation that is not closed runs to the end.
  function Bare(s: string): string
    decreases |s|, 0
  {
    if s == [] || IsBlank(s[0]) then []
    else if s[0] == '\\' && |s| > 1 then [s[1]] + Bare(s[2..])
    else if s[0] == '\'' then Quoted([], s[1..])
    else [s[0]] + Bare(s[1..])
  }

  function Quoted(before: string, s: string): string
    decreases |s|, 1
  {
    if s == [] then TrimBlanks(before)
    else if s[0] == '\'' then before + Bare(s[1..])
    else Quoted(before + [s[0]], s[1..])
  }

  function Token(s: string): string { Bare(SkipBlanks(s)) }

  function Keyword(s: string): (r: (string, string)) {
    if s == [] || IsBlank(s[0]) then ([], SkipBlanks(s))
    else var (word, rest) := Keyword(s[1..]); ([s[0]] + word, rest)
  }

  // ---------------------------------------------------------------- tokens of quoted and of escaped text

  lemma {:induction false} QuotedReads(before: string, s: string)
    ensures Quoted(before, ShellQuote.Escape(s) + ['\'']) == before + s
    decreases |s|
  {
    if s == [] {
      assert ShellQuote.Escape(s) + ['\''] == ['\''];
      assert ['\''][1..] == [];
    } else {
      var more := ShellQuote.Escape(s[1..]) + ['\''];
      assert s == [s[0]] + s[1..];
      if s[0] == '\'' {
        QuotedReads([], s[1..]);
        ReopenedReads(before, more);
        assert ShellQuote.Escape(s) + ['\''] == ['\'', '\\', '\'', '\''] + more;
      } else {
        QuotedReads(before + [s[0]], s[1..]);
        assert ShellQuote.Escape(s) + ['\''] == [s[0]] + more;
        assert ([s[0]] + more)[1..] == more;
        assert before + [s[0]] + s[1..] == before + s;
      }
    }
  }

  // Inside a quotation the four characters read as one quote, and what stood before is kept.
  lemma ReopenedReads(before: string, more: string)
    ensures Quoted(before, ['\'', '\\', '\'', '\''] + more) == before + (['\''] + Quoted([], more))
  {
    var s, t, u := ['\'', '\\', '\'', '\''] + more, ['\\', '\'', '\''] + more, ['\''] + more;
    assert s[1..] == t && t[2..] == u && u[1..] == more;
    assert Bare(u) == Quoted([], more);
    assert Bare(t) == ['\''] + Bare(u);
  }

  // For every text, the quoted form is read back as the text.
  lemma UrlReadsBack(url: string)
    ensures Token(ShellQuote.Quote(url)) == url
  {
    QuotedReads([], url);
    var q := ShellQuote.Quote(url);
    assert q[1..] == ShellQuote.Escape(url) + ['\''];
    assert q[0] == '\'' && !IsBlank(q[0]);
  }

  // An option value stands without quotes around it.
  predicate Plain(v: string) {
    forall i :: 0 <= i < |v| ==> !IsBlank(v[i]) && v[i] != '\'' && (v[i] == '\\' ==> i == |v| - 1)
  }

  lemma {:induction false} QuotedShrinks(before: string, v: string)
    ensures |Quoted(before, ShellQuote.Escape(v))| <= |before| + |v|
    decreases |v|
  {
    if v != [] {
      var more := ShellQuote.Escape(v[1..]);
      if v[0] == '\'' {
        QuotedShrinks([], v[1..]);
        ReopenedReads(before, more);
      } else {
        QuotedShrinks(before + [v[0]], v[1..]);
        assert ([v[0]] + more)[1..] == more;
      }
    }
  }

  // What the reader makes of an escaped text outside quotes.
  function BareOf(v: string): string
    requires v != []
  {
    if v[0] == '\'' then ['\\'] + Quoted([], ShellQuote.Escape(v[1..]))
    else if v[0] != '\\' then [v[0]] + Bare(ShellQuote.Escape(v[1..]))
    else if |v| == 1 then v
    else if v[1] == '\'' then ['\'', '\''] + Quoted([], ShellQuote.Escape(v[2..]))
    else [v[1]] + Bare(ShellQuote.Escape(v[2..]))
  }

  lemma BareCases(v: string)
    requires v != [] && !IsBlank(v[0])
    ensures Bare(ShellQuote.Escape(v)) == BareOf(v)
  {
    if v[0] == '\'' {
      QuoteOutside(ShellQuote.Escape(v[1..]));
    } else if v[0] == '\\' && |v| > 1 {
      BackslashCases(v);
    } else {
      var more := ShellQuote.Escape(v[1..]);
      assert ([v[0]] + more)[1..] == more;
    }
  }

  lemma BackslashCases(v: string)
    requires |v| > 1 && v[0] == '\\'
    ensures Bare(ShellQuote.Escape(v)) == BareOf(v)
  {
    var last := ShellQuote.Escape(v[2..]);
    assert v[1..][1..] == v[2..];
    if v[1] == '\'' {
      BackslashQuote(last);
      assert ShellQuote.Escape(v) == ['\\'] + (['\'', '\\', '\'', '\''] + last);
    } else {
      assert ShellQuote.Escape(v[1..]) == [v[1]] + last;
      assert ShellQuote.Escape(v) == ['\\', v[1]] + last && (['\\', v[1]] + last)[2..] == last;
    }
  }

  lemma QuoteOutside(more: string)
    ensures Bare(['\'', '\\', '\'', '\''] + more) == ['\\'] + Quoted([], more)
  {
    var s, t, u, w := ['\'', '\\', '\'', '\''] + more, ['\\', '\'', '\''] + more, ['\'', '\''] + more, ['\''] + more;
    assert s[1..] == t && t[1..] == u && u[1..] == w && w[1..] == more;
    assert Bare(w) == Quoted([], more);
    assert Quoted(['\\'], u) == ['\\'] + Bare(w);
    assert Quoted([], t) == Quoted([] + ['\\'], u);
    assert [] + ['\\'] == ['\\'];
  }

  lemma BackslashQuote(last: string)
    ensures Bare(['\\'] + (['\'', '\\', '\'', '\''] + last)) == ['\'', '\''] + Quoted([], last)
  {
    var s, t, u := ['\\'] + (['\'', '\\', '\'', '\''] + last), ['\\', '\'', '\''] + last, ['\''] + last;
    assert s[2..] == t && t[2..] == u && u[1..] == last;
    assert Bare(u) == Quoted([], last);
    assert Bare(t) == ['\''] + Bare(u);
    assert Bare(s) == ['\''] + Bare(t);
  }

  lemma {:induction false} BareShrinks(v: string)
    ensures |Bare(ShellQuote.Escape(v))| <= |v|
  {
    if v != [] {
      if IsBlank(v[0]) {
        assert ShellQuote.Escape(v)[0] == v[0];
      } else {
        BareCases(v);
        BareShrinks(v[1..]);
        QuotedShrinks([], v[1..]);
        if |v| > 1 {
          BareShrinks(v[2..]);
          QuotedShrinks([], v[2..]);
        }
      }
    }
  }

  lemma {:induction false} BareIff(v: string)
    ensures Bare(ShellQuote.Escape(v)) == v <==> Plain(v)
  {
    if v == [] {
    } else if IsBlank(v[0]) {
      assert ShellQuote.Escape(v)[0] == v[0];
    } else {
      BareCases(v);
      if |v| > 1 { BareShrinks(v[2..]); }
      BareIff(v[1..]);
      PlainTail(v);
      assert v == [v[0]] + v[1..];
    }
  }

  lemma PlainTail(v: string)
    requires v != []
    ensures Plain(v) <==> !IsBlank(v[0]) && v[0] != '\'' && (v[0] == '\\' ==> |v| == 1) && Plain(v[1..])
  {
    var t := v[1..];
    if Plain(t) {
      forall i | 1 <= i < |v| ensures !IsBlank(v[i]) && v[i] != '\'' && (v[i] == '\\' ==> i == |v| - 1) {
        assert t[i - 1] == v[i];
      }
    }
    if Plain(v) {
      forall i | 0 <= i < |t| ensures !IsBlank(t[i]) && t[i] != '\'' && (t[i] == '\\' ==> i == |t| - 1) {
        assert t[i] == v[i + 1];
      }
    }
  }

  lemma {:induction false} SkipEscaped(v: string)
    ensures SkipBlanks(ShellQuote.Escape(v)) == ShellQuote.Escape(SkipBlanks(v))
  {
    if v != [] && IsBlank(v[0]) {
      SkipEscaped(v[1..]);
      assert ([v[0]] + ShellQuote.Escape(v[1..]))[1..] == ShellQuote.Escape(v[1..]);
    } else if v != [] {
      assert !IsBlank(ShellQuote.Escape(v)[0]);
    }
  }

  // A value without quotes around it is read back exactly when it has no blank, no quote, and no
  // backslash except at the very end.
  lemma ValueReadsBackIff(v: string)
    ensures Token(ShellQuote.Escape(v)) == v <==> Plain(v)
  {
    SkipEscaped(v);
    BareIff(v);
    BareShrinks(SkipBlanks(v));
    if v != [] && IsBlank(v[0]) {
      assert |SkipBlanks(v)| < |v|;
    } else {
      assert SkipBlanks(v) == v;
    }
  }

  // ---------------------------------------------------------------- the document read back

  function FileOf(line: string): seq<string> {
    var (word, rest) := Keyword(SkipBlanks(line));
    if word == FILE then [Token(rest)] else []
  }

  function SettingOf(line: string): seq<Setting> {
    var (word, rest) := Keyword(SkipBlanks(line));
    if word == OPTION then var (name, value) := Keyword(rest); [Setting(name, Token(value))] else []
  }

  function Files(lines: seq<string>): seq<string> {
    if lines == [] then [] else FileOf(lines[0]) + Files(lines[1..])
  }

  function Settings(lines: seq<string>): seq<Setting> {
    if lines == [] then [] else SettingOf(lines[0]) + Settings(lines[1..])
  }

  predicate NoBlank(s: string) { forall k :: 0 <= k < |s| ==> !IsBlank(s[k]) }

  lemma {:induction false} KeywordReads(word: string, rest: string)
    requires NoBlank(word)
    ensures Keyword(word + [' '] + rest) == (word, SkipBlanks(rest))
  {
    var s := word + [' '] + rest;
    if word == [] {
      assert s[1..] == rest;
    } else {
      assert NoBlank(word[1..]);
      KeywordReads(word[1..], rest);
      assert s[1..] == word[1..] + [' '] + rest && s[0] == word[0] && !IsBlank(word[0]);
      assert [word[0]] + word[1..] == word;
    }
  }

  lemma {:induction false} SkipTwice(s: string)
    ensures SkipBlanks(SkipBlanks(s)) == SkipBlanks(s)
  {
    if s != [] && IsBlank(s[0]) { SkipTwice(s[1..]); }
  }

  // A line that starts with a keyword.
  lemma LineReads(word: string, rest: string)
    requires NoBlank(word) && word != []
    ensures Keyword(SkipBlanks(word + [' '] + rest)) == (word, SkipBlanks(rest))
  {
    assert SkipBlanks(word + [' '] + rest) == word + [' '] + rest;
    KeywordReads(word, rest);
  }

  lemma HeaderReads()
    ensures FileOf(HEADER) == [] && SettingOf(HEADER) == []
  {
    LineReads(FFCONCAT, "version 1.0");
    assert |FFCONCAT| == 8 && |FILE| == 4 && |OPTION| == 6;
  }

  lemma FileReads(url: string)
    ensures FileOf(FileLine(url)) == [url] && SettingOf(FileLine(url)) == []
  {
    LineReads(FILE, ShellQuote.Quote(url));
    UrlReadsBack(url);
    SkipTwice(ShellQuote.Quote(url));
    assert |FILE| == 4 && |OPTION| == 6;
  }

  function ReadOne(o: Setting): Setting { Setting(o.name, Token(ShellQuote.Escape(o.value))) }

  lemma SettingReads(o: Setting)
    requires GoodSetting(o)
    ensures FileOf(SettingLine(o)) == [] && SettingOf(SettingLine(o)) == [ReadOne(o)]
  {
    var tail := ShellQuote.Escape(o.value);
    NameHasNoBlank(o);
    LineReads(OPTION, o.name + [' '] + tail);
    assert SkipBlanks(o.name + [' '] + tail) == o.name + [' '] + tail;
    KeywordReads(o.name, tail);
    SkipTwice(tail);
    assert |FILE| == 4 && |OPTION| == 6;
  }

  lemma NameHasNoBlank(o: Setting)
    requires GoodSetting(o)
    ensures NoBlank(o.name)
  {
    forall k | 0 <= k < |o.name| ensures !IsBlank(o.name[k]) { assert IsNameChar(o.name[k]); }
  }

  function ReadBack(options: seq<Setting>): (r: seq<Setting>)
    ensures |r| == |options|
    ensures forall k :: 0 <= k < |r| ==> r[k] == ReadOne(options[k])
  {
    seq(|options|, k requires 0 <= k < |options| => ReadOne(options[k]))
  }

  predicate AllGood(options: seq<Setting>) { forall k :: 0 <= k < |options| ==> GoodSetting(options[k]) }

  lemma {:induction false} SettingsRead(options: seq<Setting>)
    requires AllGood(options)
    ensures Settings(SettingLines(options) + [[]]) == ReadBack(options)
    ensures Files(SettingLines(options) + [[]]) == []
  {
    if options == [] {
      LastLineReads();
      assert SettingLines(options) + [[]] == [[]];
    } else {
      SettingsRead(options[1..]);
      FirstSettingLine(options);
      SettingFirst(options[0], SettingLines(options[1..]) + [[]]);
    }
  }

  lemma FirstSettingLine(options: seq<Setting>)
    requires options != []
    ensures SettingLines(options) + [[]] == [SettingLine(options[0])] + (SettingLines(options[1..]) + [[]])
    ensures ReadBack(options) == [ReadOne(options[0])] + ReadBack(options[1..])
  {
    var rest := options[1..];
    assert forall k :: 0 <= k < |rest| ==> rest[k] == options[k + 1];
    assert SettingLines(options) == [SettingLine(options[0])] + SettingLines(rest);
  }

  lemma SettingFirst(o: Setting, lines: seq<string>)
    requires GoodSetting(o)
    ensures Files([SettingLine(o)] + lines) == Files(lines)
    ensures Settings([SettingLine(o)] + lines) == [ReadOne(o)] + Settings(lines)
  {
    SettingReads(o);
    FirstLine(SettingLine(o), lines);
  }

  lemma FirstLine(line: string, lines: seq<string>)
    ensures Files([line] + lines) == FileOf(line) + Files(lines)
    ensures Settings([line] + lines) == SettingOf(line) + Settings(lines)
  {
    assert ([line] + lines)[1..] == lines;
  }

  lemma LastLineReads()
    ensures Files([[]]) == [] && Settings([[]]) == []
  {
    var empty: string := [];
    assert Keyword(SkipBlanks(empty)).0 == [];
    assert |FILE| == 4 && |OPTION| == 6;
    FirstLine(empty, []);
    assert [empty] + [] == [empty];
  }

  lemma {:induction false} EscapeKeepsOut(s: string, c: char)
    requires c !in s && c != '\'' && c != '\\'
    ensures c !in ShellQuote.Escape(s)
  {
    if s != [] {
      assert s[0] in s;
      EscapeKeepsOut(s[1..], c);
    }
  }

  lemma LinesAreWhole(url: string, options: seq<Setting>)
    requires Clean(url) && AllGood(options)
    ensures forall k :: 0 <= k < |options| + 2 ==> '\n' !in ([HEADER, FileLine(url)] + SettingLines(options))[k]
  {
    EscapeKeepsOut(url, '\n');
    assert '\n' !in HEADER && '\n' !in FILE && '\n' !in OPTION;
    forall k | 0 <= k < |options| ensures '\n' !in SettingLine(options[k]) {
      assert GoodSetting(options[k]);
      EscapeKeepsOut(options[k].value, '\n');
    }
  }

  lemma DocumentLines(url: string, options: seq<Setting>)
    requires Clean(url) && AllGood(options)
    ensures var lines := [HEADER, FileLine(url)] + SettingLines(options); Split(Written(lines), '\n') == lines + [[]]
  {
    LinesAreWhole(url, options);
    SplitJoin([HEADER, FileLine(url)] + SettingLines(options) + [[]], '\n');
  }

  // A header, a file line and the lines of the settings.
  lemma OneFile(header: string, file: string, rest: seq<string>, url: string)
    requires FileOf(header) == [] && SettingOf(header) == [] && FileOf(file) == [url] && SettingOf(file) == []
    requires Files(rest) == []
    ensures Files([header] + ([file] + rest)) == [url] && Settings([header] + ([file] + rest)) == Settings(rest)
  {
    FirstLine(header, [file] + rest);
    FirstLine(file, rest);
  }

  lemma Regrouped(header: string, file: string, lines: seq<string>, last: string)
    ensures [header, file] + lines + [last] == [header] + ([file] + (lines + [last]))
  {}

  lemma LinesRead(url: string, options: seq<Setting>)
    requires AllGood(options)
    ensures var lines := [HEADER, FileLine(url)] + SettingLines(options) + [[]];
            Files(lines) == [url] && Settings(lines) == ReadBack(options)
  {
    Regrouped(HEADER, FileLine(url), SettingLines(options), []);
    SettingsRead(options);
    HeaderReads();
    FileReads(url);
    OneFile(HEADER, FileLine(url), SettingLines(options) + [[]], url);
  }

  // Reading the document gives the URL back always, and the options exactly when all their values
  // are plain.
  lemma DocumentReadsBack(parse: Parser, url: string, options: seq<Setting>)
    requires Document(parse, url, options).Some?
    ensures var lines := Split(Document(parse, url, options).value, '\n');
            && Files(lines) == [url]
            && (Settings(lines) == options <==> forall k :: 0 <= k < |options| ==> Plain(options[k].value))
  {
    DocumentLines(url, options);
    LinesRead(url, options);
    forall k | 0 <= k < |options| ensures ReadBack(options)[k] == options[k] <==> Plain(options[k].value) {
      ValueReadsBackIff(options[k].value);
    }
    SameSettings(ReadBack(options), options);
  }

  lemma SameSettings(a: seq<Setting>, b: seq<Setting>)
    requires |a| == |b|
    ensures a == b <==> forall k :: 0 <= k < |b| ==> a[k] == b[k]
  {}

  // ---------------------------------------------------------------- prepareSecretURLInput

  const PROTOCOLS := "file,pipe,tcp,udp,rtp,rtsp,http,https,tls"

  const MOVED := {"-analyzeduration", "-err_detect", "-fflags", "-flags", "-max_delay", "-probesize",
                  "-rtsp_transport", "-rw_timeout", "-stimeout", "-timeout", "-user_agent"}

  const INPUT := "-i"

  const FIXED := ["-protocol_whitelist", PROTOCOLS, "-f", "concat", "-safe", "0", "-i", "pipe:3"]

  datatype Outcome = Prepared(args: seq<string>, document: string) | WrongCount | NoValue(name: string) | BadDocument

  datatype Stripping = Stripped(kept: seq<string>, moved: seq<Setting>) | Dangling(name: string)

  // strings.TrimPrefix(name, "-").
  function TrimDash(name: string): (r: string)
    ensures if name != "" && name[0] == '-' then name == "-" + r else r == name
  {
    if name != "" && name[0] == '-' then name[1..] else name
  }

  // The URL stands at `index` and nowhere else.
  predicate OnlyAt(args: seq<string>, url: string, index: nat) {
    index < |args| && forall j :: 0 <= j < |args| ==> (args[j] == url <==> j == index)
  }

  // Each listed name takes the next argument along; everything else stays.
  function Strip(names: set<string>, args: seq<string>): Stripping {
    if args == [] then Stripped([], [])
    else if args[0] in names then
      if |args| == 1 then Dangling(args[0])
      else Prepend([], [Setting(TrimDash(args[0]), args[1])], Strip(names, args[2..]))
    else Prepend([args[0]], [], Strip(names, args[1..]))
  }

  function Prepend(kept: seq<string>, moved: seq<Setting>, s: Stripping): Stripping {
    if s.Dangling? then s else Stripped(kept + s.kept, moved + s.moved)
  }

  function Start(args: seq<string>, index: nat): nat
    requires index < |args|
  {
    if index > 0 && args[index - 1] == INPUT then index - 1 else index
  }

  // What is left of the command once the URL at `index` is taken out.
  function Secured(parse: Parser, names: set<string>, args: seq<string>, index: nat): Outcome
    requires index < |args|
  {
    match Strip(names, args[..Start(args, index)])
    case Dangling(name) => NoValue(name)
    case Stripped(kept, moved) =>
      match Document(parse, args[index], moved)
      case None => BadDocument
      case Some(d) => Prepared(kept + FIXED + args[index + 1..], d)
  }

  method PrepareInput(parse: Parser, args: seq<string>, url: string) returns (r: Outcome)
    ensures r.WrongCount? <==> forall i: nat :: !OnlyAt(args, url, i)
    ensures forall i: nat :: OnlyAt(args, url, i) ==> r == Secured(parse, MOVED, args, i)
  {
    var index := -1;
    for i := 0 to |args|
      invariant -1 <= index < i
      invariant index >= 0 ==> args[index] == url
      invariant forall j :: 0 <= j < i && j != index ==> args[j] != url
    {
      if args[i] == url {
        if index >= 0 { return WrongCount; }
        index := i;
      }
    }
    if index < 0 {
      forall i: nat ensures !OnlyAt(args, url, i) { if i < |args| { assert args[i] != url; } }
      return WrongCount;
    }
    assert OnlyAt(args, url, index);
    r := SecureAt(parse, MOVED, args, index);
  }

  method SecureAt(parse: Parser, names: set<string>, args: seq<string>, index: nat) returns (r: Outcome)
    requires index < |args|
    ensures r == Secured(parse, names, args, index)
  {
    var start := if index > 0 && args[index - 1] == INPUT then index - 1 else index;
    var stripping := StripArgs(names, args[..start]);
    if stripping.Dangling? {
      return NoValue(stripping.name);
    }
    var document := ConcatDocument(parse, args[index], stripping.moved);
    if document.None? {
      return BadDocument;
    }
    return Prepared(stripping.kept + FIXED + args[index + 1..], document.value);
  }

  method StripArgs(names: set<string>, args: seq<string>) returns (r: Stripping)
    ensures r == Strip(names, args)
  {
    var secured: seq<string>, inputOptions: seq<Setting> := [], [];
    var cursor := 0;
    while cursor < |args|
      invariant 0 <= cursor <= |args|
      invariant Strip(names, args) == Prepend(secured, inputOptions, Strip(names, args[cursor..]))
    {
      var name := args[cursor];
      ghost var rest := args[cursor..];
      StripStep(names, rest, secured, inputOptions);
      if name in names {
        if cursor + 1 >= |args| {
          return Dangling(name);
        }
        assert rest[2..] == args[cursor + 2..];
        inputOptions := inputOptions + [Setting(TrimDash(name), args[cursor + 1])];
        cursor := cursor + 2;
      } else {
        assert rest[1..] == args[cursor + 1..];
        secured := secured + [name];
        cursor := cursor + 1;
      }
    }
    assert args[cursor..] == [];
    return Stripped(secured, inputOptions);
  }

  lemma StripStep(names: set<string>, rest: seq<string>, kept: seq<string>, moved: seq<Setting>)
    requires rest != []
    ensures rest[0] in names && |rest| == 1 ==> Prepend(kept, moved, Strip(names, rest)) == Dangling(rest[0])
    ensures rest[0] in names && |rest| > 1 ==>
              Prepend(kept, moved, Strip(names, rest)) ==
              Prepend(kept, moved + [Setting(TrimDash(rest[0]), rest[1])], Strip(names, rest[2..]))
    ensures rest[0] !in names ==>
              Prepend(kept, moved, Strip(names, rest)) == Prepend(kept + [rest[0]], moved, Strip(names, rest[1..]))
  {
    if rest[0] in names {
      if |rest| > 1 {
        var s := Strip(names, rest[2..]);
        PrependTwice(kept, moved, [], [Setting(TrimDash(rest[0]), rest[1])], s);
        assert kept + [] == kept;
      }
    } else {
      PrependTwice(kept, moved, [rest[0]], [], Strip(names, rest[1..]));
      assert moved + [] == moved;
    }
  }

  lemma PrependTwice(kept: seq<string>, moved: seq<Setting>, k: seq<string>, m: seq<Setting>, s: Stripping)
    ensures Prepend(kept, moved, Prepend(k, m, s)) == Prepend(kept + k, moved + m, s)
  {
    if s.Stripped? {
      assert kept + (k + s.kept) == kept + k + s.kept;
      assert moved + (m + s.moved) == moved + m + s.moved;
    }
  }

  // ------------------------------------------------- which commands are accepted, and what becomes of them

  // A command line before the URL, as its author meant it.
  datatype Item = Keep(word: string) | Move(name: string, value: string)

  predicate Legal(names: set<string>, items: seq<Item>) {
    forall k :: 0 <= k < |items| ==> if items[k].Keep? then items[k].word !in names else items[k].name in names
  }

  function Words(items: seq<Item>): seq<string> {
    if items == [] then []
    else (if items[0].Keep? then [items[0].word] else [items[0].name, items[0].value]) + Words(items[1..])
  }

  function KeptOf(items: seq<Item>): seq<string> {
    if items == [] then [] else (if items[0].Keep? then [items[0].word] else []) + KeptOf(items[1..])
  }

  function MovedOf(items: seq<Item>): seq<Setting> {
    if items == [] then []
    else (if items[0].Keep? then [] else [Setting(TrimDash(items[0].name), items[0].value)]) + MovedOf(items[1..])
  }

  // A listed option takes its value along; every other word stays, in order.
  lemma {:induction false} WordsAreStripped(names: set<string>, items: seq<Item>)
    requires Legal(names, items)
    ensures Strip(names, Words(items)) == Stripped(KeptOf(items), MovedOf(items))
  {
    if items != [] {
      var rest := items[1..];
      WordsAreStripped(names, rest);
      if items[0].Keep? {
        assert ([items[0].word] + Words(rest))[1..] == Words(rest);
      } else {
        assert ([items[0].name, items[0].value] + Words(rest))[2..] == Words(rest);
      }
    }
  }

  // Every command line is made of such items, and perhaps a listed name without a value at its end.
  lemma {:induction false} WordsExist(names: set<string>, args: seq<string>)
    returns (items: seq<Item>, end: seq<string>)
    ensures Legal(names, items) && args == Words(items) + end
    ensures end == [] || (|end| == 1 && end[0] in names)
    ensures Strip(names, args) == if end == [] then Stripped(KeptOf(items), MovedOf(items)) else Dangling(end[0])
  {
    if args == [] { return [], []; }
    if args[0] !in names {
      var more;
      more, end := WordsExist(names, args[1..]);
      items := [Keep(args[0])] + more;
      assert items[1..] == more && args == [args[0]] + args[1..];
    } else if |args| == 1 {
      return [], args;
    } else {
      var more;
      more, end := WordsExist(names, args[2..]);
      items := [Move(args[0], args[1])] + more;
      assert items[1..] == more && args == [args[0], args[1]] + args[2..];
    }
  }

  // `args` is the words of the items, an optional "-i", the URL, and the rest of the command.
  ghost predicate Command(args: seq<string>, items: seq<Item>, input: seq<string>, url: string, rest: seq<string>) {
    && args == Words(items) + input + [url] + rest
    && url !in Words(items) + input && url !in rest
    && (input == [INPUT] || (input == [] && (Words(items) == [] || Words(items)[|Words(items)| - 1] != INPUT)))
  }

  lemma CommandStarts(args: seq<string>, items: seq<Item>, input: seq<string>, url: string, rest: seq<string>)
    requires Command(args, items, input, url, rest)
    ensures var index := |Words(items)| + |input|;
            OnlyAt(args, url, index) && args[..Start(args, index)] == Words(items) && args[index + 1..] == rest
  {
    var before := Words(items) + input;
    var index := |before|;
    assert args == before + ([url] + rest);
    forall j | 0 <= j < |args| ensures args[j] == url <==> j == index {
      if j < index { assert args[j] == before[j]; }
      if j > index { assert args[j] == rest[j - index - 1]; }
    }
    if index > 0 { assert args[index - 1] == before[index - 1]; }
  }

  // A command with exactly one URL becomes: the words that are not moved, the fixed words, the
  // rest; the document carries the URL and the moved options.  Here and below `names` is any list of options
  // to move; the source moves MOVED.
  lemma CommandIsSecured(parse: Parser, names: set<string>, args: seq<string>, items: seq<Item>, input: seq<string>,
                         url: string, rest: seq<string>)
    requires Command(args, items, input, url, rest) && Legal(names, items)
    ensures var index := |Words(items)| + |input|; var d := Document(parse, url, MovedOf(items));
            && OnlyAt(args, url, index)
            && Secured(parse, names, args, index) ==
               if d.Some? then Prepared(KeptOf(items) + FIXED + rest, d.value) else BadDocument
  {
    CommandStarts(args, items, input, url, rest);
    WordsAreStripped(names, items);
  }

  // Conversely, only such commands are accepted.
  lemma OnlyCommandsAreSecured(parse: Parser, names: set<string>, args: seq<string>, url: string, index: nat)
    returns (items: seq<Item>, input: seq<string>, rest: seq<string>)
    requires OnlyAt(args, url, index) && Secured(parse, names, args, index).Prepared?
    ensures Command(args, items, input, url, rest) && Legal(names, items)
    ensures Document(parse, url, MovedOf(items)).Some?
  {
    var start := Start(args, index);
    var end;
    items, end := WordsExist(names, args[..start]);
    assert end == [] && Words(items) == args[..start];
    input, rest := args[start..index], args[index + 1..];
    Rejoin(args, start, index);
    OnlyAtOutside(args, url, index);
    if input == [] && Words(items) != [] { assert args[..start][start - 1] == args[index - 1]; }
  }

  lemma Rejoin(args: seq<string>, start: nat, index: nat)
    requires start <= index < |args| && start == Start(args, index)
    ensures args == args[..start] + args[start..index] + [args[index]] + args[index + 1..]
    ensures args[..start] + args[start..index] == args[..index]
    ensures if start < index then args[start..index] == [INPUT] else args[start..index] == []
  {}

  lemma OnlyAtOutside(args: seq<string>, url: string, index: nat)
    requires OnlyAt(args, url, index)
    ensures args[index] == url && url !in args[..index] && url !in args[index + 1..]
  {
    forall k | 0 <= k < index ensures args[..index][k] != url { assert args[..index][k] == args[k]; }
    var rest := args[index + 1..];
    forall k | 0 <= k < |rest| ensures rest[k] != url { assert rest[k] == args[index + 1 + k]; }
  }

  lemma SecuredArgs(parse: Parser, names: set<string>, args: seq<string>, url: string, index: nat)
    returns (items: seq<Item>, input: seq<string>, rest: seq<string>)
    requires OnlyAt(args, url, index) && Secured(parse, names, args, index).Prepared?
    ensures Command(args, items, input, url, rest)
    ensures Secured(parse, names, args, index).args == KeptOf(items) + FIXED + rest
  {
    items, input, rest := OnlyCommandsAreSecured(parse, names, args, url, index);
    CommandIsSecured(parse, names, args, items, input, url, rest);
    OnlyOnce(args, url, index, |Words(items)| + |input|);
  }

  // The URL is gone from the command line, unless it happens to be one of the fixed words.
  lemma SecretIsGone(parse: Parser, names: set<string>, args: seq<string>, url: string, index: nat)
    requires OnlyAt(args, url, index) && Secured(parse, names, args, index).Prepared?
    ensures url in Secured(parse, names, args, index).args ==> url in FIXED
  {
    var items, input, rest := SecuredArgs(parse, names, args, url, index);
    OnlyFixedIsLeft(args, url, items, input, rest);
  }

  lemma OnlyFixedIsLeft(args: seq<string>, url: string, items: seq<Item>, input: seq<string>, rest: seq<string>)
    requires Command(args, items, input, url, rest)
    ensures url in KeptOf(items) + FIXED + rest ==> url in FIXED
  {
    KeptAreWords(items);
    UrlIsOutside(args, url, items, input, rest);
    InOneOf(url, KeptOf(items), FIXED, rest);
  }

  lemma OnlyOnce(args: seq<string>, url: string, i: nat, j: nat)
    requires OnlyAt(args, url, i) && OnlyAt(args, url, j)
    ensures i == j
  {
    assert args[i] == url;
  }

  lemma UrlIsOutside(args: seq<string>, url: string, items: seq<Item>, input: seq<string>, rest: seq<string>)
    requires Command(args, items, input, url, rest)
    ensures url !in Words(items) && url !in rest
  {}

  lemma InOneOf(w: string, a: seq<string>, b: seq<string>, c: seq<string>)
    ensures w in a + b + c <==> w in a || w in b || w in c
  {}

  lemma {:induction false} KeptAreWords(items: seq<Item>)
    ensures forall w :: w in KeptOf(items) ==> w in Words(items)
  {
    if items != [] { KeptAreWords(items[1..]); }
  }
}
