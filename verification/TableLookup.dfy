/** table_lookup.c as it is written: line buffers, NULs written into them, a strtok cursor and
    a caller's buffer that is copied into. */
module TableLookup {
  import opened Options
  import opened RuleText

  class TextFile {
    const content: string
    var pos: nat

    constructor (content: string)
      ensures this.content == content && pos == 0
    {
      this.content := content;
      pos := 0;
    }

    ghost predicate Valid()
      reads this
    {
      pos <= |content|
    }

    ghost function Rest(): string
      requires Valid()
      reads this
    {
      content[pos..]
    }

    /** fgets into a line buffer: up to and including a newline, at most 1023 characters, and
        a NUL after them. */
    method Gets(buf: array<char>) returns (ok: bool)
      requires Valid() && buf.Length == 1024
      modifies this`pos, buf
      ensures Valid() && ok == (old(Rest()) != [])
      ensures ok ==> var n := FirstChunk(old(Rest()));
                     Rest() == old(Rest())[n..] && buf[..n] == old(Rest())[..n] && buf[n] == NUL
      ensures !ok ==> Rest() == []
    {
      ghost var rest := Rest();
      var i := 0;
      while i < CHUNK && pos < |content|
        invariant Valid() && i <= CHUNK && i <= |rest| && pos == old(pos) + i
        invariant forall j :: 0 <= j < i ==> buf[j] == rest[j] && rest[j] != '\n'
      {
        var c := content[pos];
        pos := pos + 1;
        buf[i] := c;
        i := i + 1;
        if c == '\n' {
          break;
        }
      }
      if i == 0 {
        return false;
      }
      buf[i] := NUL;
      return true;
    }
  }

  /** There is a string at this position of a buffer. */
  ghost predicate HasString(s: seq<char>, from: nat)
  {
    from < |s| && NUL in s[from..]
  }

  ghost function StringAt(s: seq<char>, from: nat): (r: string)
    requires HasString(s, from)
    ensures NUL !in r && from + |r| <= |s|
  {
    CString(s[from..])
  }

  /** The first NUL from p on ends the string at p. */
  lemma Terminated(s: seq<char>, p: nat, q: nat)
    requires p <= q < |s| && s[q] == NUL && NUL !in s[p..q]
    ensures HasString(s, p) && StringAt(s, p) == s[p..q]
  {
    assert s[p..][..q - p] == s[p..q];
    assert s[p..][q - p] == NUL;
    CStringIs(s[p..], q - p);
  }

  lemma Bounds(s: seq<char>, from: nat)
    requires HasString(s, from)
    ensures var n := |StringAt(s, from)|;
            && from + n < |s| && s[from + n] == NUL && StringAt(s, from) == s[from..from + n]
  {
    assert s[from..][..|CString(s[from..])|] == s[from..from + |CString(s[from..])|];
  }

  /** The string at a later position of the same string. */
  lemma Later(s: seq<char>, from: nat, p: nat)
    requires HasString(s, from) && from <= p <= from + |StringAt(s, from)|
    ensures HasString(s, p) && StringAt(s, p) == StringAt(s, from)[p - from..]
    ensures p < from + |StringAt(s, from)| ==> s[p] == StringAt(s, from)[p - from] != NUL
    ensures p == from + |StringAt(s, from)| ==> s[p] == NUL
  {
    Bounds(s, from);
    var q := from + |StringAt(s, from)|;
    assert s[p..q] == s[from..q][p - from..];
    Terminated(s, p, q);
  }

  method StrLen(buf: array<char>, from: nat) returns (n: nat)
    requires HasString(buf[..], from)
    ensures n == |StringAt(buf[..], from)| && from + n < buf.Length && buf[from + n] == NUL
  {
    Bounds(buf[..], from);
    ghost var size := |StringAt(buf[..], from)|;
    n := 0;
    while buf[from + n] != NUL
      invariant n <= size
      decreases size - n
    {
      n := n + 1;
    }
    Later(buf[..], from, from + n);
  }

  // ---------- strtok ----------

  lemma TokensSkip(c: char, s: string)
    requires IsDelimiter(c)
    ensures Tokens([c] + s) == Tokens(s)
  {
    hide Tokens;
    hide Gaps;
    if IsGap(s) {
      TokensNone(s);
      TokensNone([c] + s);
    } else {
      var g, t, rest := Split(s);
      TokensCons(g, t, rest);
      assert [c] + s == ([c] + g) + t + rest;
      assert IsGap([c] + g);
      TokensCons([c] + g, t, rest);
    }
  }

  /** The first token of a text lies between a and b, and the others behind b. */
  lemma TokenBetween(text: string, a: nat, b: nat)
    requires a < b <= |text| && IsGap(text[..a]) && IsToken(text[a..b]) && (b < |text| ==> IsDelimiter(text[b]))
    ensures Tokens(text) == [text[a..b]] + Tokens(if b < |text| then text[b + 1..] else "")
  {
    hide Tokens;
    hide Gaps;
    assert text == text[..a] + text[a..b] + text[b..];
    TokensCons(text[..a], text[a..b], text[b..]);
    if b < |text| {
      assert text[b..] == [text[b]] + text[b + 1..];
      TokensSkip(text[b], text[b + 1..]);
    } else {
      assert text[b..] == "";
    }
  }

  /** The buffer after strtok has cut off the token between p and q. */
  function CutAt(s: seq<char>, q: nat): seq<char>
    requires q < |s|
  {
    s[q := NUL]
  }

  /** What strtok finds when the token is between p and q, and what it leaves behind. */
  lemma StrTokResult(s: seq<char>, from: nat, p: nat, q: nat)
    requires HasString(s, from) && from <= p < q <= from + |StringAt(s, from)|
    requires forall j :: from <= j < p ==> IsDelimiter(s[j])
    requires forall j :: p <= j < q ==> !IsDelimiter(s[j])
    requires q < |s| && (s[q] == NUL || IsDelimiter(s[q]))
    ensures var tokens := Tokens(StringAt(s, from));
            var next := if s[q] == NUL then q else q + 1;
            var s2 := CutAt(s, q);
            && tokens != [] && HasString(s2, p) && StringAt(s2, p) == tokens[0]
            && HasString(s2, next) && Tokens(StringAt(s2, next)) == tokens[1..]
  {
    hide Tokens;
    hide StringAt;
    hide HasString;
    TokenHere(s, from, p, q);
    TokenCut(s, from, p, q);
    RestCut(s, from, q);
  }

  lemma TokenCut(s: seq<char>, from: nat, p: nat, q: nat)
    requires HasString(s, from) && from <= p < q <= from + |StringAt(s, from)| && q < |s|
    ensures HasString(CutAt(s, q), p) && StringAt(CutAt(s, q), p) == StringAt(s, from)[p - from..q - from]
  {
    Bounds(s, from);
    var text := s[from..from + |StringAt(s, from)|];
    assert text[p - from..q - from] == s[p..q] == CutAt(s, q)[p..q];
    Terminated(CutAt(s, q), p, q);
  }

  lemma RestCut(s: seq<char>, from: nat, q: nat)
    requires HasString(s, from) && from <= q <= from + |StringAt(s, from)| && q < |s|
    ensures var text, next := StringAt(s, from), if s[q] == NUL then q else q + 1;
            && HasString(CutAt(s, q), next)
            && StringAt(CutAt(s, q), next) == if q - from < |text| then text[q - from + 1..] else ""
  {
    Later(s, from, q);
    if s[q] == NUL {
      Terminated(CutAt(s, q), q, q);
    } else {
      Later(s, from, q + 1);
      SameBehind(s, CutAt(s, q), q + 1);
    }
  }

  lemma SameBehind(s: seq<char>, s2: seq<char>, p: nat)
    requires HasString(s, p) && |s| == |s2| && forall j :: p <= j < |s| ==> s[j] == s2[j]
    ensures HasString(s2, p) && StringAt(s2, p) == StringAt(s, p)
  {
    assert s2[p..] == s[p..];
  }

  lemma TokenHere(s: seq<char>, from: nat, p: nat, q: nat)
    requires HasString(s, from) && from <= p < q <= from + |StringAt(s, from)|
    requires forall j :: from <= j < p ==> IsDelimiter(s[j])
    requires forall j :: p <= j < q ==> !IsDelimiter(s[j])
    requires q < |s| && (s[q] == NUL || IsDelimiter(s[q]))
    ensures var text, a, b := StringAt(s, from), p - from, q - from;
            Tokens(text) == [text[a..b]] + Tokens(if b < |text| then text[b + 1..] else "")
  {
    hide Tokens;
    var text := StringAt(s, from);
    Bounds(s, from);
    assert forall j :: 0 <= j < |text| ==> text[j] == s[from + j];
    TokenBetween(text, p - from, q - from);
  }

  method SkipDelimiters(buf: array<char>, from: nat) returns (p: nat)
    requires HasString(buf[..], from)
    ensures from <= p <= from + |StringAt(buf[..], from)| && p < buf.Length && !IsDelimiter(buf[p])
    ensures forall j :: from <= j < p ==> IsDelimiter(buf[..][j])
    ensures buf[p] == NUL <==> p == from + |StringAt(buf[..], from)|
  {
    ghost var end := from + |StringAt(buf[..], from)|;
    Bounds(buf[..], from);
    p := from;
    while IsDelimiter(buf[p])
      invariant from <= p <= end
      invariant forall j :: from <= j < p ==> IsDelimiter(buf[j])
      decreases end - p
    {
      p := p + 1;
    }
    Later(buf[..], from, p);
  }

  method TokenEnd(buf: array<char>, ghost from: nat, p: nat) returns (q: nat)
    requires HasString(buf[..], from) && from <= p < from + |StringAt(buf[..], from)|
    requires p < buf.Length && buf[p] != NUL && !IsDelimiter(buf[p])
    ensures p < q <= from + |StringAt(buf[..], from)| && q < buf.Length && (buf[q] == NUL || IsDelimiter(buf[q]))
    ensures forall j :: p <= j < q ==> !IsDelimiter(buf[..][j])
  {
    ghost var end := from + |StringAt(buf[..], from)|;
    Bounds(buf[..], from);
    q := p;
    while buf[q] != NUL && !IsDelimiter(buf[q])
      invariant p <= q <= end
      invariant forall j :: p <= j < q ==> !IsDelimiter(buf[j])
      decreases end - q
    {
      q := q + 1;
    }
  }

  /** One strtok call on the text from this position: it skips delimiters, ends the token with
      a NUL in place, and says where the next call goes on. */
  method StrTok(buf: array<char>, from: nat) returns (token: Option<nat>, next: nat)
    requires HasString(buf[..], from)
    modifies buf
    ensures var tokens := Tokens(StringAt(old(buf[..]), from));
            && (token.None? <==> tokens == [])
            && (token.Some? ==> HasString(buf[..], token.value) && StringAt(buf[..], token.value) == tokens[0])
            && (token.Some? ==> from < next && HasString(buf[..], next) && Tokens(StringAt(buf[..], next)) == tokens[1..])
  {
    hide Tokens;
    hide StringAt;
    ghost var s := buf[..];
    var p := SkipDelimiters(buf, from);
    if buf[p] == NUL {
      NoToken(s, from);
      return None, p;
    }
    var q := TokenEnd(buf, from, p);
    StrTokResult(s, from, p, q);
    token := Some(p);
    next := q;
    if buf[q] != NUL {
      buf[q] := NUL;
      next := q + 1;
    }
    assert buf[..] == CutAt(s, q);
  }

  lemma NoToken(s: seq<char>, from: nat)
    requires HasString(s, from)
    requires forall j :: from <= j < from + |StringAt(s, from)| ==> IsDelimiter(s[j])
    ensures Tokens(StringAt(s, from)) == []
  {
    Bounds(s, from);
    TokensNone(StringAt(s, from));
  }

  // ---------- one rule ----------

  /** strchr(rule_line, '#'), and a NUL in its place if there is one. */
  method CutComment(line: array<char>)
    requires HasString(line[..], 0)
    modifies line
    ensures HasString(line[..], 0) && StringAt(line[..], 0) == BeforeHash(StringAt(old(line[..]), 0))
  {
    ghost var s := line[..];
    ghost var text := StringAt(s, 0);
    Bounds(s, 0);
    var i := 0;
    while line[i] != NUL && line[i] != '#'
      invariant i <= |text| && '#' !in text[..i]
      decreases |text| - i
    {
      assert text[..i + 1] == text[..i] + [text[i]];
      i := i + 1;
    }
    Later(s, 0, i);
    CommentAt(text, i);
    if line[i] == '#' {
      line[i] := NUL;
    }
    assert line[..][0..i] == text[..i];
    Terminated(line[..], 0, i);
  }

  lemma CommentAt(text: string, i: nat)
    requires i <= |text| && '#' !in text[..i] && (i < |text| ==> text[i] == '#')
    ensures BeforeHash(text) == text[..i]
  {
    BeforeHashIs(text[..i], text[i..]);
    assert text == text[..i] + text[i..];
  }

  /** printf("%s") of the string at this position. */
  method ReadString(buf: array<char>, from: nat) returns (r: string)
    requires HasString(buf[..], from)
    ensures r == StringAt(buf[..], from)
  {
    var n := StrLen(buf, from);
    Bounds(buf[..], from);
    r := buf[from..from + n];
  }

  /** The labels printed for one rule line; the line buffer is taken apart on the way. */
  method MatchRule(matches: (string, string) -> bool, board: string, line: array<char>) returns (printed: seq<string>)
    requires HasString(line[..], 0)
    modifies line
    ensures printed == RuleLabels(matches, board, StringAt(old(line[..]), 0))
  {
    hide StringAt;
    hide HasString;
    hide Tokens;
    CutComment(line);
    printed := [];
    var token, next := StrTok(line, 0);
    if token.Some? {
      var pattern := ReadString(line, token.value);
      if matches(pattern, board) {
        printed := PrintLabels(line, next);
      }
    }
  }

  /** The loop over the remaining words of a rule. */
  method PrintLabels(line: array<char>, from: nat) returns (printed: seq<string>)
    requires HasString(line[..], from)
    modifies line
    ensures printed == Tokens(StringAt(old(line[..]), from))
  {
    hide StringAt;
    hide HasString;
    hide Tokens;
    ghost var words := Tokens(StringAt(line[..], from));
    printed := [];
    var token, next := StrTok(line, from);
    while token.Some?
      invariant token.Some? ==> HasString(line[..], token.value) && HasString(line[..], next)
      invariant words == printed + if token.None? then []
                                   else [StringAt(line[..], token.value)] + Tokens(StringAt(line[..], next))
      decreases |words| - |printed|, token.Some?
    {
      var word := ReadString(line, token.value);
      printed := printed + [word];
      token, next := StrTok(line, next);
    }
  }

  // ---------- the two files ----------

  /** A buffer that fgets has filled with n characters. */
  lemma Filled(s: seq<char>, n: nat)
    requires n < |s| && s[n] == NUL
    ensures HasString(s, 0) && StringAt(s, 0) == CString(s[..n])
  {
    var m := |CString(s[..n])|;
    assert s[..n][..m] == s[0..m];
    assert s[m] == NUL;
    Terminated(s, 0, m);
  }

  /** One round of the loop over the rules: the line is skipped if it fills its buffer. */
  method PrintChunk(matches: (string, string) -> bool, board: string, line: array<char>, ghost n: nat)
    returns (printed: seq<string>)
    requires n < line.Length && line[n] == NUL
    modifies line
    ensures printed == ChunkLabels(matches, board, old(line[..n]))
  {
    hide StringAt;
    hide HasString;
    hide RuleLabels;
    Filled(line[..], n);
    assert line[..][..n] == line[..n];
    var size := StrLen(line, 0);
    if size == CHUNK {
      return [];
    }
    printed := MatchRule(matches, board, line);
  }

  /** Print the labels of every rule in the configuration file, if there is one. */
  method PrintRules(matches: (string, string) -> bool, board: string, conf: Option<string>) returns (printed: seq<string>)
    ensures printed == if conf.Some? then Labels(matches, board, Chunks(conf.value)) else []
  {
    printed := [];
    if conf.None? {
      return;
    }
    hide ChunkLabels;
    hide Labels;
    hide Chunks;
    hide FirstChunk;
    var fp := new TextFile(conf.value);
    var line := new char[1024];
    assert conf.value[0..] == conf.value;
    var more := true;
    while more
      invariant fp.Valid() && fresh(fp) && fresh(line)
      invariant Labels(matches, board, Chunks(conf.value)) == printed + Labels(matches, board, Chunks(fp.Rest()))
      invariant !more ==> fp.Rest() == []
      decreases |fp.Rest()|, more
    {
      ghost var rest := fp.Rest();
      more := fp.Gets(line);
      if more {
        ghost var n := FirstChunk(rest);
        LabelsStep(matches, board, rest, printed);
        var labels := PrintChunk(matches, board, line, n);
        printed := printed + labels;
      }
    }
    NoChunks();
    NoLabels(matches, board);
  }

  /** strcpy. */
  method StrCpy(dst: array<char>, src: array<char>, from: nat)
    requires HasString(src[..], from) && |StringAt(src[..], from)| < dst.Length && src != dst
    modifies dst
    ensures HasString(dst[..], 0) && StringAt(dst[..], 0) == StringAt(src[..], from)
  {
    ghost var text := StringAt(src[..], from);
    Bounds(src[..], from);
    var i := 0;
    while src[from + i] != NUL
      invariant i <= |text| && StringAt(src[..], from) == text
      invariant forall j :: 0 <= j < i ==> dst[j] == text[j]
      decreases |text| - i
    {
      dst[i] := src[from + i];
      i := i + 1;
    }
    Later(src[..], from, from + i);
    dst[i] := NUL;
    assert dst[..][0..i] == text;
    Terminated(dst[..], 0, i);
  }

  /** The line that begins with the key, without its last character: what is left behind the
      key is its value. */
  method Chop(line: array<char>)
    requires HasString(line[..], 0) && IsKeyLine(StringAt(line[..], 0))
    modifies line
    ensures HasString(line[..], |KEY|) && StringAt(line[..], |KEY|) == Value(StringAt(old(line[..]), 0))
  {
    ghost var text := StringAt(line[..], 0);
    Bounds(line[..], 0);
    var n := StrLen(line, 0);
    line[n - 1] := NUL;
    ghost var end := if n == |KEY| then n else n - 1;
    assert line[..][|KEY|..end] == Value(text);
    Terminated(line[..], |KEY|, end);
  }

  /** One round of the loop over the release file. */
  method TakeBoardLine(size: nat, line: array<char>, board: array<char>, ghost n: nat) returns (more: bool, taken: bool)
    requires n < line.Length && line[n] == NUL && size <= board.Length && line != board
    modifies line, board
    ensures var text := CString(old(line[..n]));
            && (more <==> |text| != CHUNK && (IsKeyLine(text) ==> |Value(text)| < size))
            && (taken <==> more && IsKeyLine(text))
            && (taken ==> HasString(board[..], 0) && StringAt(board[..], 0) == Value(text))
    ensures !taken ==> board[..] == old(board[..])
  {
    hide StringAt;
    hide HasString;
    Filled(line[..], n);
    assert line[..][..n] == line[..n];
    var text := ReadString(line, 0);
    if |text| == CHUNK {
      return false, false;
    }
    if !IsKeyLine(text) {
      return true, false;
    }
    Chop(line);
    var length := StrLen(line, |KEY|);
    if length >= size {
      return false, false;
    }
    StrCpy(board, line, |KEY|);
    return true, true;
  }

  /** The board name in a buffer of the given size, from the release file if it can be opened. */
  method GetBoardName(size: nat, release: Option<string>, board: array<char>) returns (found: bool)
    requires size <= board.Length
    modifies board
    ensures var name := if release.Some? then ScanBoard(size, Chunks(release.value), None) else None;
            && found == name.Some?
            && (found ==> HasString(board[..], 0) && StringAt(board[..], 0) == name.value)
    ensures !found ==> board[..] == old(board[..])
  {
    found := false;
    if release.None? {
      return;
    }
    hide StringAt;
    hide HasString;
    hide Value;
    hide IsKeyLine;
    hide CString;
    hide Chunks;
    hide FirstChunk;
    NoChunks();
    var fp := new TextFile(release.value);
    var line := new char[1024];
    assert release.value[0..] == release.value;
    var more := true;
    ghost var name: Option<string> := None;
    while more
      invariant fp.Valid() && fresh(fp) && fresh(line) && found == name.Some?
      invariant found ==> HasString(board[..], 0) && StringAt(board[..], 0) == name.value
      invariant !found ==> board[..] == old(board[..])
      invariant ScanBoard(size, Chunks(release.value), None)
                == if more then ScanBoard(size, Chunks(fp.Rest()), name) else name
      decreases |fp.Rest()|, more
    {
      ghost var rest := fp.Rest();
      more := fp.Gets(line);
      if more {
        ghost var n := FirstChunk(rest);
        ChunksStep(rest);
        assert Chunks(rest)[1..] == Chunks(rest[n..]);
        var taken;
        more, taken := TakeBoardLine(size, line, board, n);
        if taken {
          found := true;
          name := Some(Value(CString(rest[..n])));
        }
      }
    }
  }

  /** The whole lookup: the labels of all rules in the configuration whose pattern matches the
      name of the board. */
  method DetectLabelByBoardName(matches: (string, string) -> bool, release: Option<string>, conf: Option<string>)
    returns (printed: seq<string>)
    ensures printed == Detected(matches, release, conf)
  {
    hide StringAt;
    hide HasString;
    var board := new char[MAX_BOARD];
    var found := GetBoardName(MAX_BOARD, release, board);
    if !found {
      return [];
    }
    var name := ReadString(board, 0);
    printed := PrintRules(matches, name, conf);
  }
}
