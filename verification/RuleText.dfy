/** The text that avtest_label_detect reads: C strings, the chunks fgets hands out, the tokens
    strtok finds, and what the rule table and the release file mean. */
module RuleText {
  import opened Options

  const NUL: char := 0 as char

  /** A char array read as a C string: everything before the first NUL. */
  function CString(s: seq<char>): (r: seq<char>)
    ensures r <= s && NUL !in r
    ensures r == s || (|r| < |s| && s[|r|] == NUL)
  {
    if s == [] || s[0] == NUL then [] else [s[0]] + CString(s[1..])
  }

  lemma {:induction false} CStringIs(s: seq<char>, n: nat)
    requires n <= |s| && NUL !in s[..n] && (n < |s| ==> s[n] == NUL)
    ensures CString(s) == s[..n]
  {
    if n == 0 {
    } else {
      assert s[0] == s[..n][0];
      assert s[1..][..n - 1] == s[..n][1..];
      CStringIs(s[1..], n - 1);
    }
  }

  // ---------- tokens ----------

  predicate IsDelimiter(c: char)
  {
    c == ' ' || c == '\t' || c == '\n'
  }

  /** How many characters at the front of s are (are not) delimiters. */
  function Run(s: string, delimiters: bool): (n: nat)
    ensures n <= |s|
    ensures forall i :: 0 <= i < n ==> IsDelimiter(s[i]) == delimiters
    ensures n < |s| ==> IsDelimiter(s[n]) != delimiters
  {
    if s == [] || IsDelimiter(s[0]) != delimiters then 0 else 1 + Run(s[1..], delimiters)
  }

  function Tokens(s: string): (r: seq<string>)
    decreases |s|
  {
    var skip := Run(s, true);
    if skip == |s| then []
    else
      var n := Run(s[skip..], false);
      [s[skip..][..n]] + Tokens(s[skip + n..])
  }

  predicate IsToken(t: string)
  {
    t != [] && forall i :: 0 <= i < |t| ==> t[i] !in {' ', '\t', '\n'}
  }

  predicate IsGap(g: string)
  {
    forall i :: 0 <= i < |g| ==> g[i] in {' ', '\t', '\n'}
  }

  /** gaps[0] tokens[0] gaps[1] tokens[1] ... gaps[n] */
  function Interleave(gaps: seq<string>, tokens: seq<string>): string
    requires |gaps| == |tokens| + 1
  {
    if tokens == [] then gaps[0]
    else gaps[0] + tokens[0] + Interleave(gaps[1..], tokens[1..])
  }

  /** Tokens separated by delimiters, with delimiters before and after if there are any. */
  ghost predicate IsLayout(gaps: seq<string>, tokens: seq<string>)
  {
    && |gaps| == |tokens| + 1
    && (forall i :: 0 <= i < |tokens| ==> IsToken(tokens[i]))
    && (forall i :: 0 <= i < |gaps| ==> IsGap(gaps[i]))
    && (forall i :: 0 < i < |gaps| - 1 ==> gaps[i] != [])
  }

  lemma RunIs(s: string, delimiters: bool, n: nat)
    requires n <= |s| && (forall i :: 0 <= i < n ==> IsDelimiter(s[i]) == delimiters)
    requires n < |s| ==> IsDelimiter(s[n]) != delimiters
    ensures Run(s, delimiters) == n
  {
  }

  /** How s is laid out around its tokens. */
  function Gaps(s: string): (r: seq<string>)
    decreases |s|
  {
    var skip := Run(s, true);
    if skip == |s| then [s]
    else [s[..skip]] + Gaps(s[skip + Run(s[skip..], false)..])
  }

  /** A gap, a token and what follows it. */
  lemma TokensCons(g: string, t: string, rest: string)
    requires IsGap(g) && IsToken(t) && (rest != [] ==> IsDelimiter(rest[0]))
    ensures Tokens(g + t + rest) == [t] + Tokens(rest)
    ensures Gaps(g + t + rest) == [g] + Gaps(rest)
  {
    var s := g + t + rest;
    assert s == g + (t + rest);
    assert s[|g|] == t[0];
    RunIs(s, true, |g|);
    assert s[|g|..] == t + rest;
    RunIs(t + rest, false, |t|);
    assert (t + rest)[..|t|] == t && s[|g| + |t|..] == rest && s[..|g|] == g;
  }

  lemma TokensNone(s: string)
    requires IsGap(s)
    ensures Tokens(s) == [] && Gaps(s) == [s]
  {
    RunIs(s, true, |s|);
  }

  /** Any text is one or the other. */
  lemma Split(s: string) returns (g: string, t: string, rest: string)
    ensures IsGap(s) || (IsGap(g) && IsToken(t) && (rest != [] ==> IsDelimiter(rest[0])) && s == g + t + rest)
  {
    var skip := Run(s, true);
    if skip == |s| {
      return "", "", "";
    }
    var n := Run(s[skip..], false);
    g, t, rest := s[..skip], s[skip..][..n], s[skip..][n..];
  }

  lemma LayoutTail(gaps: seq<string>, tokens: seq<string>)
    requires IsLayout(gaps, tokens) && tokens != []
    ensures IsGap(gaps[0]) && IsToken(tokens[0]) && IsLayout(gaps[1..], tokens[1..])
    ensures tokens[1..] != [] ==> gaps[1..][0] != []
  {
    assert forall i :: 0 <= i < |tokens[1..]| ==> tokens[1..][i] == tokens[i + 1];
    assert forall i :: 0 <= i < |gaps[1..]| ==> gaps[1..][i] == gaps[i + 1];
  }

  lemma {:induction false} TokensOfLayout(gaps: seq<string>, tokens: seq<string>)
    requires IsLayout(gaps, tokens)
    ensures Tokens(Interleave(gaps, tokens)) == tokens
    decreases |tokens|
  {
    hide Tokens;
    hide Gaps;
    hide IsGap;
    hide IsToken;
    if tokens == [] {
      TokensNone(gaps[0]);
    } else {
      LayoutTail(gaps, tokens);
      hide IsLayout;
      var rest := Interleave(gaps[1..], tokens[1..]);
      TokensOfLayout(gaps[1..], tokens[1..]);
      StartsWithGap(gaps[1..], tokens[1..]);
      TokensCons(gaps[0], tokens[0], rest);
    }
  }

  lemma StartsWithGap(gaps: seq<string>, tokens: seq<string>)
    requires IsLayout(gaps, tokens) && (tokens != [] ==> gaps[0] != [])
    ensures var s := Interleave(gaps, tokens); s != [] ==> IsDelimiter(s[0])
  {
    assert IsGap(gaps[0]);
  }

  lemma ConsLayout(g: string, t: string, gaps: seq<string>, tokens: seq<string>)
    requires IsLayout(gaps, tokens) && IsGap(g) && IsToken(t) && (tokens != [] ==> gaps[0] != [])
    ensures IsLayout([g] + gaps, [t] + tokens)
    ensures Interleave([g] + gaps, [t] + tokens) == g + t + Interleave(gaps, tokens)
  {
    assert ([g] + gaps)[1..] == gaps && ([t] + tokens)[1..] == tokens;
  }

  lemma {:induction false} LayoutOfTokens(s: string)
    ensures IsLayout(Gaps(s), Tokens(s)) && Interleave(Gaps(s), Tokens(s)) == s
    decreases |s|
  {
    hide IsLayout;
    hide Interleave;
    hide Tokens;
    hide Gaps;
    if IsGap(s) {
      TokensNone(s);
      BareLayout(s);
    } else {
      var g, t, rest := Split(s);
      TokensCons(g, t, rest);
      LayoutOfTokens(rest);
      LayoutStart(rest);
      ConsLayout(g, t, Gaps(rest), Tokens(rest));
    }
  }

  lemma BareLayout(s: string)
    requires IsGap(s)
    ensures IsLayout([s], []) && Interleave([s], []) == s
  {
  }

  /** Text that starts with a delimiter and has tokens starts with a real gap. */
  lemma LayoutStart(s: string)
    requires s != [] ==> IsDelimiter(s[0])
    ensures Tokens(s) != [] ==> Gaps(s) != [] && Gaps(s)[0] != []
  {
  }

  /** The tokens of s are the one sequence of delimiter-free words that s consists of, however
      they are spaced. */
  lemma TokensIff(s: string, tokens: seq<string>)
    ensures Tokens(s) == tokens <==> exists gaps :: IsLayout(gaps, tokens) && Interleave(gaps, tokens) == s
  {
    LayoutOfTokens(s);
    forall gaps | IsLayout(gaps, tokens) && Interleave(gaps, tokens) == s
      ensures Tokens(s) == tokens
    {
      TokensOfLayout(gaps, tokens);
    }
  }

  // ---------- one rule ----------

  function BeforeHash(s: string): (r: string)
    ensures r <= s && '#' !in r
    ensures r == s || (|r| < |s| && s[|r|] == '#')
  {
    if s == [] || s[0] == '#' then [] else [s[0]] + BeforeHash(s[1..])
  }

  /** The labels a rule line prints for a board: its first word is a pattern, and if the
      pattern matches the board, all the other words are labels. */
  function RuleLabels(matches: (string, string) -> bool, board: string, line: string): (r: seq<string>)
  {
    var words := Tokens(BeforeHash(line));
    if words == [] || !matches(words[0], board) then [] else words[1..]
  }

  /** What follows a '#' never matters, and a blank rule prints nothing. */
  lemma CommentsDoNotMatter(matches: (string, string) -> bool, board: string, rule: string, comment: string)
    requires '#' !in rule
    ensures RuleLabels(matches, board, rule + "#" + comment) == RuleLabels(matches, board, rule)
    ensures IsGap(rule) ==> RuleLabels(matches, board, rule) == []
  {
    BeforeHashIs(rule, "#" + comment);
    BeforeHashIs(rule, "");
    assert rule + "#" + comment == rule + ("#" + comment) && rule + "" == rule;
    if IsGap(rule) {
      TokensNone(rule);
    }
  }

  lemma {:induction false} BeforeHashIs(rule: string, rest: string)
    requires '#' !in rule && (rest != [] ==> rest[0] == '#')
    ensures BeforeHash(rule + rest) == rule
  {
    if rule == [] {
      assert rule + rest == rest;
    } else {
      assert (rule + rest)[1..] == rule[1..] + rest;
      BeforeHashIs(rule[1..], rest);
    }
  }

  /** Written out with any spacing, a rule prints exactly its labels iff its pattern matches. */
  lemma RuleRoundTrip(matches: (string, string) -> bool, board: string, gaps: seq<string>, words: seq<string>)
    requires IsLayout(gaps, words) && words != [] && '#' !in Interleave(gaps, words)
    ensures RuleLabels(matches, board, Interleave(gaps, words)) == if matches(words[0], board) then words[1..] else []
  {
    var s := Interleave(gaps, words);
    TokensOfLayout(gaps, words);
    BeforeHashIs(s, "");
    assert s + "" == s;
  }

  /** Words with one separator in front of each (between them). */
  function Separated(separator: char, words: seq<string>): string
  {
    if words == [] then "" else [separator] + words[0] + Separated(separator, words[1..])
  }

  function Joined(separator: char, words: seq<string>): string
    requires words != []
  {
    words[0] + Separated(separator, words[1..])
  }

  function SeparatorGaps(separator: char, n: nat): (r: seq<string>)
    ensures |r| == n + 1 && r[n] == "" && forall i :: 0 <= i < n ==> r[i] == [separator]
  {
    if n == 0 then [""] else [[separator]] + SeparatorGaps(separator, n - 1)
  }

  lemma {:induction false} SeparatedIsInterleaved(separator: char, words: seq<string>)
    ensures Interleave(SeparatorGaps(separator, |words|), words) == Separated(separator, words)
  {
    if words == [] {
    } else {
      SeparatedIsInterleaved(separator, words[1..]);
      assert SeparatorGaps(separator, |words|)[1..] == SeparatorGaps(separator, |words| - 1);
    }
  }

  /** A rule whose words are separated by blanks, or by tabs, prints its labels iff its pattern
      matches. */
  lemma SeparatedRule(matches: (string, string) -> bool, board: string, separator: char, words: seq<string>)
    requires separator == ' ' || separator == '\t'
    requires words != [] && (forall i :: 0 <= i < |words| ==> IsToken(words[i])) && '#' !in Joined(separator, words)
    ensures RuleLabels(matches, board, Joined(separator, words)) == if matches(words[0], board) then words[1..] else []
  {
    var gaps := [""] + SeparatorGaps(separator, |words| - 1);
    SeparatedIsInterleaved(separator, words[1..]);
    assert gaps[1..] == SeparatorGaps(separator, |words| - 1);
    assert "" + words[0] == words[0];
    assert Interleave(gaps, words) == Joined(separator, words);
    assert IsLayout(gaps, words);
    RuleRoundTrip(matches, board, gaps, words);
  }

  // ---------- lines and fgets chunks ----------

  /** The longest text that fits a line buffer of 1024 characters. */
  const CHUNK: nat := 1023

  /** The length of the first line, its newline included. */
  function FirstLine(s: string): (n: nat)
    requires s != []
    ensures 0 < n <= |s|
    ensures forall i :: 0 <= i < n - 1 ==> s[i] != '\n'
    ensures n == |s| || s[n - 1] == '\n'
  {
    if s[0] == '\n' || |s| == 1 then 1 else 1 + FirstLine(s[1..])
  }

  function Lines(s: string): (r: seq<string>)
    decreases |s|
  {
    if s == [] then [] else [s[..FirstLine(s)]] + Lines(s[FirstLine(s)..])
  }

  /** What one fgets call reads. */
  function FirstChunk(s: string): (n: nat)
    requires s != []
    ensures 0 < n <= |s| && n <= CHUNK
  {
    if FirstLine(s) <= CHUNK then FirstLine(s) else CHUNK
  }

  function Chunks(s: string): (r: seq<string>)
    decreases |s|
  {
    if s == [] then [] else [s[..FirstChunk(s)]] + Chunks(s[FirstChunk(s)..])
  }

  function Flat<T>(xs: seq<seq<T>>): seq<T>
  {
    if xs == [] then [] else xs[0] + Flat(xs[1..])
  }

  lemma ChunksCons(head: string, rest: string)
    requires head + rest != [] && FirstChunk(head + rest) == |head|
    ensures Chunks(head + rest) == [head] + Chunks(rest)
  {
    assert (head + rest)[..|head|] == head && (head + rest)[|head|..] == rest;
  }

  lemma FlatCons<T>(x: seq<T>, xs: seq<seq<T>>)
    ensures Flat([x] + xs) == x + Flat(xs)
  {
    assert ([x] + xs)[1..] == xs;
  }

  /** The chunks are the file, in pieces. */
  lemma {:induction false} ChunksReassemble(s: string)
    ensures Flat(Chunks(s)) == s
    ensures forall i :: 0 <= i < |Chunks(s)| ==> 0 < |Chunks(s)[i]| <= 1023
    decreases |s|
  {
    if s == [] {
    } else {
      hide Chunks;
      hide Flat;
      var head, rest := s[..FirstChunk(s)], s[FirstChunk(s)..];
      assert s == head + rest;
      ChunksCons(head, rest);
      ChunksReassemble(rest);
      FlatCons(head, Chunks(rest));
    }
  }

  /** A line: no newline except at its end. */
  predicate IsLine(s: string)
  {
    s != [] && forall i :: 0 <= i < |s| - 1 ==> s[i] != '\n'
  }

  predicate Ended(s: string)
  {
    s != [] && s[|s| - 1] == '\n'
  }

  lemma {:induction false} FirstLineIs(line: string, rest: string)
    requires IsLine(line) && (rest == [] || Ended(line))
    ensures FirstLine(line + rest) == |line|
  {
    if |line| == 1 {
      if rest == [] {
        assert line + rest == line;
      }
    } else {
      assert (line + rest)[1..] == line[1..] + rest;
      assert (line + rest)[0] == line[0];
      FirstLineIs(line[1..], rest);
    }
  }

  /** fgets never reads across the end of a line, so a file is chunked line by line. */
  lemma {:induction false} ChunksOfLine(line: string, rest: string)
    requires IsLine(line) && (rest == [] || Ended(line))
    ensures Chunks(line + rest) == Chunks(line) + Chunks(rest)
    decreases |line|
  {
    hide Chunks;
    FirstLineIs(line, rest);
    FirstLineIs(line, "");
    assert line + "" == line;
    if |line| <= CHUNK {
      ChunksCons(line, rest);
      ChunksCons(line, "");
      assert Chunks("") == [] by { NoChunks(); }
    } else {
      var head, tail := line[..CHUNK], line[CHUNK..];
      assert line == head + tail && line + rest == head + (tail + rest);
      ChunksCons(head, tail + rest);
      ChunksCons(head, tail);
      ChunksOfLine(tail, rest);
    }
  }

  lemma ChunksStep(s: string)
    requires s != []
    ensures Chunks(s) == [s[..FirstChunk(s)]] + Chunks(s[FirstChunk(s)..])
  {
  }

  lemma NoChunks()
    ensures Chunks("") == []
  {
  }

  // ---------- the rule table ----------

  /** What the loop over the rule file does with one chunk. */
  function ChunkLabels(matches: (string, string) -> bool, board: string, chunk: string): (r: seq<string>)
  {
    var text := CString(chunk);
    if |text| == CHUNK then [] else RuleLabels(matches, board, text)
  }

  function Labels(matches: (string, string) -> bool, board: string, chunks: seq<string>): (r: seq<string>)
  {
    if chunks == [] then [] else ChunkLabels(matches, board, chunks[0]) + Labels(matches, board, chunks[1..])
  }

  lemma {:induction false} LabelsAppend(matches: (string, string) -> bool, board: string, a: seq<string>, b: seq<string>)
    ensures Labels(matches, board, a + b) == Labels(matches, board, a) + Labels(matches, board, b)
  {
    if a == [] {
      assert a + b == b;
    } else {
      assert (a + b)[1..] == a[1..] + b;
      LabelsAppend(matches, board, a[1..], b);
    }
  }

  /** The part of a line that the rule loop takes for a rule: all of it if it is short, what is
      left over after the last full buffer otherwise. */
  function RulePart(line: string): (r: string)
  {
    line[CHUNK * (|line| / CHUNK)..]
  }

  lemma RulePartShort(line: string)
    requires |line| < CHUNK
    ensures RulePart(line) == line
  {
    assert |line| / CHUNK == 0;
  }

  lemma RulePartStep(line: string)
    requires |line| >= CHUNK
    ensures RulePart(line) == RulePart(line[CHUNK..])
  {
    var rest := line[CHUNK..];
    assert CHUNK * (|line| / CHUNK) == CHUNK + CHUNK * (|rest| / CHUNK);
  }

  /** The labels a file of rules prints, line by line. */
  function LabelsByLine(matches: (string, string) -> bool, board: string, lines: seq<string>): (r: seq<string>)
  {
    if lines == [] then []
    else RuleLabels(matches, board, RulePart(lines[0])) + LabelsByLine(matches, board, lines[1..])
  }

  lemma RuleLabelsOfNothing(matches: (string, string) -> bool, board: string)
    ensures RuleLabels(matches, board, "") == []
  {
    TokensNone("");
  }

  lemma CStringOfText(s: string)
    requires NUL !in s
    ensures CString(s) == s
  {
    CStringIs(s, |s|);
    assert s[..|s|] == s;
  }

  lemma LabelsCons(matches: (string, string) -> bool, board: string, chunk: string, chunks: seq<string>)
    ensures Labels(matches, board, [chunk] + chunks) == ChunkLabels(matches, board, chunk) + Labels(matches, board, chunks)
  {
    assert ([chunk] + chunks)[1..] == chunks;
  }

  lemma LabelsStep(matches: (string, string) -> bool, board: string, rest: string, printed: seq<string>)
    requires rest != []
    ensures var n := FirstChunk(rest);
            printed + Labels(matches, board, Chunks(rest))
            == (printed + ChunkLabels(matches, board, rest[..n])) + Labels(matches, board, Chunks(rest[n..]))
  {
    hide ChunkLabels;
    hide Labels;
    ChunksStep(rest);
    LabelsCons(matches, board, rest[..FirstChunk(rest)], Chunks(rest[FirstChunk(rest)..]));
  }

  lemma {:induction false} LabelsOfLine(matches: (string, string) -> bool, board: string, line: string)
    requires IsLine(line) && NUL !in line
    ensures Labels(matches, board, Chunks(line)) == RuleLabels(matches, board, RulePart(line))
    decreases |line|
  {
    hide RuleLabels;
    hide Chunks;
    hide Labels;
    hide RulePart;
    FirstLineIs(line, "");
    RuleLabelsOfNothing(matches, board);
    NoChunks();
    NoLabels(matches, board);
    if |line| < CHUNK {
      assert line + "" == line;
      RulePartShort(line);
      CStringOfText(line);
      ChunksCons(line, "");
      LabelsCons(matches, board, line, []);
    } else {
      var head, tail := line[..CHUNK], line[CHUNK..];
      assert line == head + tail && line + "" == line;
      CStringOfText(head);
      ChunksCons(head, tail);
      LabelsCons(matches, board, head, Chunks(tail));
      RulePartStep(line);
      if tail != [] {
        LabelsOfLine(matches, board, tail);
      } else {
        RulePartShort(tail);
      }
    }
  }

  lemma NoLabels(matches: (string, string) -> bool, board: string)
    ensures Labels(matches, board, []) == []
  {
  }

  /** For every text file the rule loop prints, line after line, the labels of what it takes
      for the rule of that line. */
  lemma {:induction false} RuleFileByLine(matches: (string, string) -> bool, board: string, file: string)
    requires NUL !in file
    ensures Labels(matches, board, Chunks(file)) == LabelsByLine(matches, board, Lines(file))
    decreases |file|
  {
    hide RuleLabels;
    if file == [] {
    } else {
      var n := FirstLine(file);
      var line, rest := file[..n], file[n..];
      assert file == line + rest && IsLine(line) && (rest == [] || Ended(line));
      ChunksOfLine(line, rest);
      LabelsAppend(matches, board, Chunks(line), Chunks(rest));
      LabelsOfLine(matches, board, line);
      RuleFileByLine(matches, board, rest);
      assert ([line] + Lines(rest))[1..] == Lines(rest);
    }
  }

  /** A line under 1023 characters is the rule it looks like. A longer one is not skipped as it
      should be: it is skipped iff its leftover names no label, or no pattern that matches. */
  lemma OverlongRuleSkippedIff(matches: (string, string) -> bool, board: string, line: string)
    requires IsLine(line) && NUL !in line
    ensures |line| < 1023 ==> Labels(matches, board, Chunks(line)) == RuleLabels(matches, board, line)
    ensures |line| >= 1023 ==>
              (Labels(matches, board, Chunks(line)) == []
               <==> var words := Tokens(BeforeHash(RulePart(line))); |words| < 2 || !matches(words[0], board))
  {
    hide Tokens;
    hide BeforeHash;
    hide Labels;
    hide Chunks;
    hide RulePart;
    LabelsOfLine(matches, board, line);
    if |line| < CHUNK {
      RulePartShort(line);
    }
  }

  const HIDDEN_RULE := ". label\n"

  lemma HiddenRuleLabels(matches: (string, string) -> bool, board: string)
    requires matches(".", board)
    ensures RuleLabels(matches, board, HIDDEN_RULE) == ["label"]
  {
    hide Tokens;
    hide Gaps;
    hide BeforeHash;
    TokensNone("\n");
    TokensCons(" ", "label", "\n");
    TokensCons("", ".", " label\n");
    assert "" + "." + " label\n" == HIDDEN_RULE && " " + "label" + "\n" == " label\n";
    BeforeHashIs(HIDDEN_RULE, "");
    assert HIDDEN_RULE + "" == HIDDEN_RULE;
  }

  /** 1023 characters of anything, and then a rule: the rule is obeyed. */
  lemma OverlongRuleIsObeyed(matches: (string, string) -> bool, board: string, filler: string)
    requires |filler| == 1023 && NUL !in filler && '\n' !in filler && matches(".", board)
    ensures IsLine(filler + HIDDEN_RULE) && |filler + HIDDEN_RULE| >= 1023
    ensures Labels(matches, board, Chunks(filler + HIDDEN_RULE)) == ["label"]
  {
    hide RuleLabels;
    hide RulePart;
    hide Labels;
    hide Chunks;
    var line := filler + HIDDEN_RULE;
    LabelsOfLine(matches, board, line);
    RulePartStep(line);
    assert line[CHUNK..] == HIDDEN_RULE;
    RulePartShort(HIDDEN_RULE);
    HiddenRuleLabels(matches, board);
  }

  // ---------- the board name ----------

  const MAX_BOARD: nat := 64
  const KEY := "CHROMEOS_RELEASE_BOARD="

  predicate IsKeyLine(line: string)
  {
    KEY <= line
  }

  /** What the chopped line reads as from behind the key on. */
  function Value(line: string): (r: string)
    requires IsKeyLine(line)
  {
    if |line| == |KEY| then "" else line[|KEY|..|line| - 1]
  }

  /** What a key line is meant to say. */
  function Meant(line: string): (r: string)
    requires IsKeyLine(line)
  {
    if Ended(line) then line[|KEY|..|line| - 1] else line[|KEY|..]
  }

  /** Chopping the last character of the line yields the value iff it is a newline, or there is
      no value to lose a character of. */
  lemma ValueIsMeantIff(line: string)
    requires IsKeyLine(line) && IsLine(line)
    ensures Value(line) == Meant(line) <==> Ended(line) || |line| == |KEY|
  {
    if |line| == |KEY| {
      assert line == KEY;
      assert line[|KEY|..] == "";
    }
  }

  /** The loop over the release file: it gives up at a chunk that fills the buffer or a value
      that does not fit, and keeps the last value it accepted. */
  function ScanBoard(size: nat, chunks: seq<string>, board: Option<string>): (r: Option<string>)
  {
    if chunks == [] then board
    else
      var line := CString(chunks[0]);
      if |line| == CHUNK then board
      else if !IsKeyLine(line) then ScanBoard(size, chunks[1..], board)
      else if |Value(line)| >= size then board
      else ScanBoard(size, chunks[1..], Some(Value(line)))
  }

  predicate Stops(size: nat, line: string)
  {
    |line| >= CHUNK || (IsKeyLine(line) && |Value(line)| >= size)
  }

  /** How many lines are read before the first one that stops the scan. */
  function Reach(size: nat, lines: seq<string>): (n: nat)
    ensures n <= |lines|
    ensures forall i :: 0 <= i < n ==> !Stops(size, lines[i])
    ensures n < |lines| ==> Stops(size, lines[n])
  {
    if lines == [] || Stops(size, lines[0]) then 0 else 1 + Reach(size, lines[1..])
  }

  /** Line i is the last key line that is read. */
  ghost predicate LastKeyLine(size: nat, lines: seq<string>, i: int)
  {
    && 0 <= i < Reach(size, lines)
    && IsKeyLine(lines[i])
    && forall j :: i < j < Reach(size, lines) ==> !IsKeyLine(lines[j])
  }

  function ScanLines(size: nat, lines: seq<string>, board: Option<string>): (r: Option<string>)
  {
    if lines == [] || Stops(size, lines[0]) then board
    else ScanLines(size, lines[1..], if IsKeyLine(lines[0]) then Some(Value(lines[0])) else board)
  }

  lemma {:induction false} ScanLinesIs(size: nat, lines: seq<string>, board: Option<string>)
    ensures (exists i :: LastKeyLine(size, lines, i) && ScanLines(size, lines, board) == Some(Value(lines[i])))
            || (ScanLines(size, lines, board) == board && forall i :: 0 <= i < Reach(size, lines) ==> !IsKeyLine(lines[i]))
  {
    if lines == [] || Stops(size, lines[0]) {
    } else {
      var rest := lines[1..];
      var next := if IsKeyLine(lines[0]) then Some(Value(lines[0])) else board;
      ScanLinesIs(size, rest, next);
      if i :| LastKeyLine(size, rest, i) && ScanLines(size, rest, next) == Some(Value(rest[i])) {
        assert forall j :: 0 < j < |lines| ==> lines[j] == rest[j - 1];
        assert LastKeyLine(size, lines, i + 1);
      } else {
        assert forall j :: 0 < j < |lines| ==> lines[j] == rest[j - 1];
        if IsKeyLine(lines[0]) {
          assert LastKeyLine(size, lines, 0);
        }
      }
    }
  }

  lemma ScanCons(size: nat, chunk: string, chunks: seq<string>, board: Option<string>)
    requires NUL !in chunk && |chunk| <= CHUNK
    ensures ScanBoard(size, [chunk] + chunks, board)
            == if Stops(size, chunk) then board
               else ScanBoard(size, chunks, if IsKeyLine(chunk) then Some(Value(chunk)) else board)
  {
    CStringOfText(chunk);
    assert ([chunk] + chunks)[1..] == chunks;
  }

  lemma ScanLinesCons(size: nat, line: string, lines: seq<string>, board: Option<string>)
    ensures ScanLines(size, [line] + lines, board)
            == if Stops(size, line) then board
               else ScanLines(size, lines, if IsKeyLine(line) then Some(Value(line)) else board)
  {
    assert ([line] + lines)[1..] == lines;
  }

  /** The scan stops before a chunk could differ from its line. */
  lemma {:induction false} ScanBoardByLine(size: nat, file: string, board: Option<string>)
    requires NUL !in file
    ensures ScanBoard(size, Chunks(file), board) == ScanLines(size, Lines(file), board)
    decreases |file|
  {
    if file == [] {
      NoChunks();
    } else {
      hide ScanBoard;
      hide ScanLines;
      hide Chunks;
      hide IsKeyLine;
      var n := FirstLine(file);
      var line, rest := file[..n], file[n..];
      assert file == line + rest;
      ScanLinesCons(size, line, Lines(rest), board);
      if n < CHUNK {
        ChunksCons(line, rest);
        ScanCons(size, line, Chunks(rest), board);
        if !Stops(size, line) {
          ScanBoardByLine(size, rest, if IsKeyLine(line) then Some(Value(line)) else board);
        }
      } else {
        var head, tail := file[..CHUNK], file[CHUNK..];
        assert file == head + tail;
        ChunksCons(head, tail);
        ScanCons(size, head, Chunks(tail), board);
      }
    }
  }

  lemma {:induction false} LinesAreLines(file: string, i: nat)
    requires i < |Lines(file)|
    ensures IsLine(Lines(file)[i])
    ensures Ended(Lines(file)[i]) <==> i < |Lines(file)| - 1 || Ended(file)
    decreases |file|
  {
    var n := FirstLine(file);
    var line, rest := file[..n], file[n..];
    assert Lines(file) == [line] + Lines(rest);
    if rest == [] {
      assert line == file;
    } else {
      assert Ended(file) <==> Ended(rest);
      if i > 0 {
        LinesAreLines(rest, i - 1);
      }
    }
  }

  /** For every text file: the scan finds a board name iff there is a key line before the first
      line that stops it, and then it is the value of the last such key line. */
  lemma BoardNameIff(size: nat, file: string, name: string)
    requires NUL !in file
    ensures ScanBoard(size, Chunks(file), None) == Some(name)
            <==> exists i :: LastKeyLine(size, Lines(file), i) && Value(Lines(file)[i]) == name
    ensures ScanBoard(size, Chunks(file), None).None?
            <==> forall i :: 0 <= i < Reach(size, Lines(file)) ==> !IsKeyLine(Lines(file)[i])
  {
    var lines := Lines(file);
    ScanBoardByLine(size, file, None);
    ScanLinesIs(size, lines, None);
    forall i, j | LastKeyLine(size, lines, i) && LastKeyLine(size, lines, j)
      ensures i == j
    {
    }
  }

  /** The name that is found is what its line means iff the line is not the last one of a file
      without a newline at its end, or has no value to lose a character of. */
  lemma BoardNameIsMeantIff(size: nat, file: string, i: nat)
    requires NUL !in file && LastKeyLine(size, Lines(file), i)
    ensures ScanBoard(size, Chunks(file), None) == Some(Meant(Lines(file)[i]))
            <==> i < |Lines(file)| - 1 || Ended(file) || Lines(file)[i] == KEY
  {
    hide ScanBoard;
    hide Chunks;
    hide Lines;
    var line := Lines(file)[i];
    LinesAreLines(file, i);
    BoardNameIff(size, file, Value(line));
    ValueIsMeantIff(line);
    assert |line| == |KEY| <==> line == KEY;
  }

  const UNENDED := KEY + "eve"

  /** A release file without a newline at its end: board eve is found as ev. */
  lemma UnendedFileLosesCharacter()
    ensures ScanBoard(MAX_BOARD, Chunks(UNENDED), None) == Some("ev") && Meant(UNENDED) == "eve"
  {
    FirstLineIs(UNENDED, "");
    assert UNENDED + "" == UNENDED && Lines("") == [];
    assert Lines(UNENDED) == [UNENDED];
    assert UNENDED[|KEY|..|UNENDED| - 1] == "ev" && UNENDED[|KEY|..] == "eve";
    assert !Stops(MAX_BOARD, UNENDED) && Reach(MAX_BOARD, [UNENDED]) == 1 by {
      assert [UNENDED][1..] == [];
    }
    assert LastKeyLine(MAX_BOARD, [UNENDED], 0);
    hide ScanBoard;
    hide Chunks;
    BoardNameIff(MAX_BOARD, UNENDED, "ev");
  }

  // ---------- both files ----------

  /** The labels the lookup prints. */
  function Detected(matches: (string, string) -> bool, release: Option<string>, conf: Option<string>): (r: seq<string>)
  {
    if release.None? || conf.None? then []
    else
      match ScanBoard(MAX_BOARD, Chunks(release.value), None)
      case None => []
      case Some(name) => Labels(matches, name, Chunks(conf.value))
  }

  function EachRule(matches: (string, string) -> bool, board: string, lines: seq<string>): (r: seq<seq<string>>)
  {
    seq(|lines|, i requires 0 <= i < |lines| => RuleLabels(matches, board, lines[i]))
  }

  lemma {:induction false} ShortRules(matches: (string, string) -> bool, board: string, lines: seq<string>)
    requires forall i :: 0 <= i < |lines| ==> |lines[i]| < 1023
    ensures LabelsByLine(matches, board, lines) == Flat(EachRule(matches, board, lines))
  {
    hide RuleLabels;
    hide RulePart;
    if lines == [] {
    } else {
      RulePartShort(lines[0]);
      ShortRules(matches, board, lines[1..]);
      assert EachRule(matches, board, lines)[1..] == EachRule(matches, board, lines[1..]);
    }
  }

  /** A rule file that has no line of 1023 characters or more means what it says: every rule
      whose pattern matches the value of the last key line that is read prints its labels, in
      the order of the file. Without such a key line, or one of the files, nothing is printed. */
  lemma LookupMeaning(matches: (string, string) -> bool, release: string, conf: string)
    requires NUL !in release && NUL !in conf
    requires forall i :: 0 <= i < |Lines(conf)| ==> |Lines(conf)[i]| < 1023
    ensures forall i :: LastKeyLine(MAX_BOARD, Lines(release), i) ==>
              Detected(matches, Some(release), Some(conf))
              == Flat(EachRule(matches, Value(Lines(release)[i]), Lines(conf)))
    ensures (forall i :: !LastKeyLine(MAX_BOARD, Lines(release), i)) ==> Detected(matches, Some(release), Some(conf)) == []
    ensures Detected(matches, None, Some(conf)) == [] && Detected(matches, Some(release), None) == []
  {
    hide Labels;
    hide ScanBoard;
    hide Chunks;
    hide RuleLabels;
    forall i | LastKeyLine(MAX_BOARD, Lines(release), i)
      ensures Detected(matches, Some(release), Some(conf))
              == Flat(EachRule(matches, Value(Lines(release)[i]), Lines(conf)))
    {
      var name := Value(Lines(release)[i]);
      BoardNameIff(MAX_BOARD, release, name);
      RuleFileByLine(matches, name, conf);
      ShortRules(matches, name, Lines(conf));
    }
    if ScanBoard(MAX_BOARD, Chunks(release), None).Some? {
      BoardNameIff(MAX_BOARD, release, ScanBoard(MAX_BOARD, Chunks(release), None).value);
    }
  }

  // ---------- written out ----------

  /** A line of a release file that is about something else. */
  predicate IsOtherLine(line: string)
  {
    IsLine(line) && Ended(line) && NUL !in line && |line| < 1023 && !("CHROMEOS_RELEASE_BOARD=" <= line)
  }

  lemma {:induction false} LinesOfFlat(lines: seq<string>)
    requires forall i :: 0 <= i < |lines| ==> IsLine(lines[i]) && Ended(lines[i])
    ensures Lines(Flat(lines)) == lines
  {
    if lines == [] {
    } else {
      var rest := Flat(lines[1..]);
      LinesOfFlat(lines[1..]);
      FirstLineIs(lines[0], rest);
      assert (lines[0] + rest)[..|lines[0]|] == lines[0] && (lines[0] + rest)[|lines[0]|..] == rest;
    }
  }

  lemma {:induction false} FlatWithoutNul(lines: seq<string>)
    requires forall i :: 0 <= i < |lines| ==> NUL !in lines[i]
    ensures NUL !in Flat(lines)
  {
    if lines == [] {
    } else {
      FlatWithoutNul(lines[1..]);
    }
  }

  /** The lines of a release file that names its board. */
  function ReleaseLines(before: seq<string>, name: string, after: seq<string>): seq<string>
  {
    before + ["CHROMEOS_RELEASE_BOARD=" + name + "\n"] + after
  }

  predicate IsRelease(before: seq<string>, name: string, after: seq<string>)
  {
    && (forall i :: 0 <= i < |before| ==> IsOtherLine(before[i]))
    && (forall i :: 0 <= i < |after| ==> IsOtherLine(after[i]))
    && NUL !in name && '\n' !in name
  }

  lemma BoardLine(name: string)
    requires NUL !in name && '\n' !in name
    ensures var line := "CHROMEOS_RELEASE_BOARD=" + name + "\n";
            && IsLine(line) && Ended(line) && NUL !in line && IsKeyLine(line) && Value(line) == name
            && (Stops(MAX_BOARD, line) <==> |name| >= 64)
  {
    var line := "CHROMEOS_RELEASE_BOARD=" + name + "\n";
    assert line == KEY + name + "\n";
    assert line[|KEY|..|line| - 1] == name;
    assert forall i :: 0 <= i < |KEY| ==> KEY[i] != '\n' && KEY[i] != NUL;
  }

  /** A release file that names its board is understood iff the name is shorter than 64. */
  lemma BoardFound(before: seq<string>, name: string, after: seq<string>)
    requires IsRelease(before, name, after)
    ensures ScanBoard(MAX_BOARD, Chunks(Flat(ReleaseLines(before, name, after))), None)
            == if |name| < 64 then Some(name) else None
  {
    var lines, n := ReleaseLines(before, name, after), |before|;
    BoardLine(name);
    hide Value;
    hide IsLine;
    hide Ended;
    assert forall i :: 0 <= i < |lines| && i != n ==>
      IsOtherLine(lines[i]) && !IsKeyLine(lines[i]) && !Stops(MAX_BOARD, lines[i]);
    hide Stops;
    LinesOfFlat(lines);
    FlatWithoutNul(lines);
    hide Lines;
    hide Flat;
    hide ScanBoard;
    hide Chunks;
    hide ReleaseLines;
    hide IsOtherLine;
    var file := Flat(lines);
    if |name| < 64 {
      assert Reach(MAX_BOARD, lines) == |lines|;
      assert LastKeyLine(MAX_BOARD, lines, n);
      BoardNameIff(MAX_BOARD, file, name);
    } else {
      assert Reach(MAX_BOARD, lines) == n;
      var found := ScanBoard(MAX_BOARD, Chunks(file), None);
      if found.Some? {
        BoardNameIff(MAX_BOARD, file, found.value);
      }
    }
  }

  /** Both files, as they are meant to be written: the lookup prints, in order, the labels of the
      rules whose pattern matches the board that the release file names. */
  lemma LookupFindsBoard(
    matches: (string, string) -> bool, before: seq<string>, name: string, after: seq<string>, conf: string)
    requires IsRelease(before, name, after) && |name| < 64
    requires NUL !in conf && forall i :: 0 <= i < |Lines(conf)| ==> |Lines(conf)[i]| < 1023
    ensures Detected(matches, Some(Flat(ReleaseLines(before, name, after))), Some(conf))
            == Flat(EachRule(matches, name, Lines(conf)))
  {
    hide Labels;
    hide ScanBoard;
    hide Chunks;
    hide RuleLabels;
    hide ReleaseLines;
    BoardFound(before, name, after);
    RuleFileByLine(matches, name, conf);
    ShortRules(matches, name, Lines(conf));
  }
}
