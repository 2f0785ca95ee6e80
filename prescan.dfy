/**
 * The line classifiers of the prescanner, which normalises Fortran source
 * text before parsing: comment lines in free and fixed source form
 * (sections 6.3.2 and 6.3.3 of ISO/IEC 1539-1:2018), INCLUDE lines
 * (section 6.4), '#' preprocessor directive lines, fixed-form continuation
 * lines, and compiler-directive lines with their sentinels ("!$omp",
 * "!dir$", ...).
 *
 * The source text is one buffer of characters that ends with a newline;
 * a position is an index into it.  A line starts below `limit`, the end of
 * the range being prescanned, and every scan stops at the latest at the
 * newline that ends the line.
 */
module Prescan {
  import opened Wrappers

  /** Text whose last character is a newline, so that every line is terminated. */
  predicate Terminated(b: seq<char>) {
    |b| > 0 && b[|b| - 1] == '\n'
  }

  predicate IsBlank(c: char) {
    c == ' ' || c == '\t'
  }

  /** ToLowerCaseLetter: upper-case ASCII letters to lower case, anything else unchanged. */
  function ToLower(c: char): (r: char)
    ensures 'A' <= c <= 'Z' ==> 'a' <= r <= 'z' && r as int == c as int + 32
    ensures !('A' <= c <= 'Z') ==> r == c
  {
    if 'A' <= c <= 'Z' then (c as int + 32) as char else c
  }

  function Lowered(s: seq<char>): (r: seq<char>)
    ensures |r| == |s| && forall i :: 0 <= i < |s| ==> r[i] == ToLower(s[i])
  {
    if s == [] then [] else [ToLower(s[0])] + Lowered(s[1..])
  }

  /** The first position at or after i that holds neither a space nor a tab. */
  function SkipBlanks(b: seq<char>, i: nat): (r: nat)
    requires Terminated(b) && i < |b|
    ensures i <= r < |b| && !IsBlank(b[r])
    ensures forall k :: i <= k < r ==> IsBlank(b[k])
    decreases |b| - i
  {
    if IsBlank(b[i]) then SkipBlanks(b, i + 1) else i
  }

  /** The first position at or after i that does not hold a space. */
  function SkipSpaces(b: seq<char>, i: nat): (r: nat)
    requires Terminated(b) && i < |b|
    ensures i <= r < |b| && b[r] != ' '
    ensures forall k :: i <= k < r ==> b[k] == ' '
    decreases |b| - i
  {
    if b[i] == ' ' then SkipSpaces(b, i + 1) else i
  }

  /**
   * In a fixed-form line from start, what the comment scan passes over at
   * k: a space, a tab, or a '0' in column 6 when no tab came before it.
   */
  predicate FixedBlankAt(b: seq<char>, start: nat, k: nat)
    requires start <= k < |b|
  {
    b[k] == ' ' || b[k] == '\t' || (b[k] == '0' && k == start + 5 && '\t' !in b[start..k])
  }

  /** The end of the run of FixedBlankAt positions that starts at k. */
  function FixedBlankRun(b: seq<char>, start: nat, k: nat): (r: nat)
    requires Terminated(b) && start <= k < |b|
    ensures k <= r < |b| && !FixedBlankAt(b, start, r)
    ensures forall j :: k <= j < r ==> FixedBlankAt(b, start, j)
    decreases |b| - k
  {
    if FixedBlankAt(b, start, k) then FixedBlankRun(b, start, k + 1) else k
  }

  /**
   * The quoted path of an INCLUDE line from position q, just after the
   * opening quote: the characters up to the closing quote, a doubled quote
   * standing for one.  The scan ends at the closing quote or, when there is
   * none, at the newline; the first component is that end.
   */
  function Unquote(b: seq<char>, q: nat, quote: char): (r: (nat, seq<char>))
    requires Terminated(b) && q < |b| && quote != '\n'
    ensures q <= r.0 < |b| && (b[r.0] == '\n' || b[r.0] == quote)
    ensures '\n' !in r.1
    decreases |b| - q
  {
    if b[q] == '\n' then (q, [])
    else if b[q] == quote then
      if b[q + 1] != quote then (q, [])
      else var rest := Unquote(b, q + 2, quote); (rest.0, [quote] + rest.1)
    else var rest := Unquote(b, q + 1, quote); (rest.0, [b[q]] + rest.1)
  }

  /** A path written between quotes, each quote inside it doubled. */
  function Doubled(path: seq<char>, quote: char): (r: seq<char>)
    ensures |r| >= |path|
  {
    if path == [] then []
    else if path[0] == quote then [quote, quote] + Doubled(path[1..], quote)
    else [path[0]] + Doubled(path[1..], quote)
  }

  /**
   * Reading back a path written with Doubled and closed by a quote gives
   * the path, and the scan ends on the closing quote.
   */
  lemma {:induction false} UnquoteDoubled(b: seq<char>, q: nat, quote: char, path: seq<char>)
    requires Terminated(b) && quote != '\n' && '\n' !in path
    requires q + |Doubled(path, quote)| + 1 < |b|
    requires b[q..q + |Doubled(path, quote)|] == Doubled(path, quote)
    requires b[q + |Doubled(path, quote)|] == quote && b[q + |Doubled(path, quote)| + 1] != quote
    ensures Unquote(b, q, quote) == (q + |Doubled(path, quote)|, path)
    decreases path
  {
    var d := Doubled(path, quote);
    if path != [] {
      if path[0] == quote {
        var rest := Doubled(path[1..], quote);
        assert d == [quote, quote] + rest;
        assert b[q] == d[0] && b[q + 1] == d[1];
        assert b[q + 2..q + 2 + |rest|] == d[2..];
        UnquoteDoubled(b, q + 2, quote, path[1..]);
        assert [quote] + path[1..] == path;
      } else {
        var rest := Doubled(path[1..], quote);
        assert d == [path[0]] + rest;
        assert b[q] == d[0];
        assert b[q + 1..q + 1 + |rest|] == d[1..];
        UnquoteDoubled(b, q + 1, quote, path[1..]);
        assert [path[0]] + path[1..] == path;
      }
    }
  }

  /**
   * Pack: the characters of a sentinel shifted into a 64-bit word, eight
   * bits each, as the bloom filter hashes them; the word wraps modulo 2^64.
   */
  function Pack(s: seq<char>): (r: nat)
    ensures r < 0x1_0000_0000_0000_0000
  {
    if s == [] then 0
    else (Pack(s[..|s| - 1]) * 256 + (s[|s| - 1] as int % 256)) % 0x1_0000_0000_0000_0000
  }

  /** The characters of dir, lower-cased, packed into one 64-bit word as they are read. */
  method PackLowered(dir: seq<char>) returns (packed: nat)
    ensures packed == Pack(Lowered(dir))
  {
    packed := 0;
    var i := 0;
    while i < |dir|
      invariant 0 <= i <= |dir| && packed == Pack(Lowered(dir)[..i])
    {
      assert Lowered(dir)[..i + 1][..i] == Lowered(dir)[..i];
      packed := (packed * 256 + (ToLower(dir[i]) as int % 256)) % 0x1_0000_0000_0000_0000;
      i := i + 1;
    }
    assert Lowered(dir)[..i] == Lowered(dir);
  }

  /** The prescanner's diagnostics that the classifiers can emit. */
  datatype PrescanMessage =
    | MalformedPathName(at: nat)
    | ExcessCharactersAfterPath(at: nat)

  /**
   * The state of a prescanner that the classifiers consult: the buffer and
   * the end of the range, the source form and its options, where the
   * current line starts, and the compiler-directive sentinels, kept both in
   * a set and in a two-hash bloom filter in front of it.
   */
  class Prescanner {
    const buffer: seq<char>
    const limit: nat
    /** The two moduli of the bloom filter's hashes. */
    const prime1: nat
    const prime2: nat
    var inFixedForm: bool
    var fixedFormColumnLimit: nat
    var enableOldDebugLines: bool
    var inCharLiteral: bool
    var delimiterNesting: int
    var tabInCurrentLine: bool
    var lineStart: nat
    var bloomFilter: set<nat>
    var sentinels: set<seq<char>>
    var messages: seq<PrescanMessage>

    predicate WellFormed() {
      Terminated(buffer) && limit <= |buffer| && prime1 > 0 && prime2 > 0
    }

    constructor (buffer: seq<char>, limit: nat, prime1: nat, prime2: nat,
                 fixedForm: bool, columnLimit: nat, oldDebugLines: bool)
      requires Terminated(buffer) && limit <= |buffer| && prime1 > 0 && prime2 > 0
      ensures WellFormed()
      ensures this.buffer == buffer && this.limit == limit && this.prime1 == prime1 && this.prime2 == prime2
      ensures inFixedForm == fixedForm && fixedFormColumnLimit == columnLimit
      ensures enableOldDebugLines == oldDebugLines
      ensures !inCharLiteral && delimiterNesting == 0 && !tabInCurrentLine && lineStart == 0
      ensures bloomFilter == {} && sentinels == {} && messages == []
    {
      this.buffer := buffer;
      this.limit := limit;
      this.prime1 := prime1;
      this.prime2 := prime2;
      inFixedForm := fixedForm;
      fixedFormColumnLimit := columnLimit;
      enableOldDebugLines := oldDebugLines;
      inCharLiteral := false;
      delimiterNesting := 0;
      tabInCurrentLine := false;
      lineStart := 0;
      bloomFilter := {};
      sentinels := {};
      messages := [];
    }

    /** Advances from q over spaces and tabs. */
    method SkipBlankRun(q: nat) returns (r: nat)
      requires WellFormed() && q < |buffer|
      ensures r == SkipBlanks(buffer, q)
    {
      r := q;
      while buffer[r] == ' ' || buffer[r] == '\t'
        invariant q <= r <= SkipBlanks(buffer, q)
        decreases |buffer| - r
      {
        r := r + 1;
      }
    }

    /**
     * The classification IsFixedFormCommentLine computes: in fixed form, a
     * line starting with '*', 'C', 'c', '%' or (without old debug lines)
     * 'D' or 'd'; otherwise, after the blank run, a run reaching the column
     * limit with no tab, a '!' outside a character literal that is not in
     * column 6 (or follows a tab), or the newline.
     */
    ghost predicate FixedFormComment(start: nat)
      reads this
      requires WellFormed() && start < |buffer|
    {
      start < limit && inFixedForm &&
      (buffer[start] in "*Cc%" || (buffer[start] in "Dd" && !enableOldDebugLines) ||
       var e := FixedBlankRun(buffer, start, start);
       var tabs := '\t' in buffer[start..e];
       (!tabs && e >= start + fixedFormColumnLimit) ||
       (buffer[e] == '!' && !inCharLiteral && (tabs || e != start + 5)) ||
       buffer[e] == '\n')
    }

    /** IsFixedFormCommentLine(start). */
    method IsFixedFormCommentLine(start: nat) returns (r: bool)
      requires WellFormed() && start < |buffer|
      ensures r == FixedFormComment(start)
    {
      if start >= limit || !inFixedForm {
        return false;
      }
      var p := start;
      var ch := buffer[p];
      if ch == '*' || ch == 'C' || ch == 'c' || ch == '%' ||
         ((ch == 'D' || ch == 'd') && !enableOldDebugLines) {
        return true;
      }
      var anyTabs := false;
      while true
        invariant start <= p < |buffer|
        invariant forall j :: start <= j < p ==> FixedBlankAt(buffer, start, j)
        invariant anyTabs == ('\t' in buffer[start..p])
        decreases |buffer| - p
      {
        ch := buffer[p];
        if ch == ' ' {
          p := p + 1;
        } else if ch == '\t' {
          anyTabs := true;
          p := p + 1;
        } else if ch == '0' && !anyTabs && p == start + 5 {
          p := p + 1;
        } else {
          break;
        }
        assert buffer[start..p] == buffer[start..p - 1] + [buffer[p - 1]];
      }
      assert !FixedBlankAt(buffer, start, p);
      ghost var e := FixedBlankRun(buffer, start, start);
      assert p == e;
      if !anyTabs && p >= start + fixedFormColumnLimit {
        return true;
      }
      if buffer[p] == '!' && !inCharLiteral && (anyTabs || p != start + 5) {
        return true;
      }
      return buffer[p] == '\n';
    }

    /** IsFreeFormComment(p): free form, and the first non-blank character is '!' or the newline. */
    method IsFreeFormComment(p: nat) returns (r: bool)
      requires WellFormed() && p < |buffer|
      ensures r <==> p < limit && !inFixedForm && buffer[SkipBlanks(buffer, p)] in "!\n"
    {
      if p >= limit || inFixedForm {
        return false;
      }
      var q := p;
      q := SkipBlankRun(q);
      return buffer[q] == '!' || buffer[q] == '\n';
    }

    /**
     * IncludeLine(p): after blanks, the keyword INCLUDE in any case, blanks,
     * and a quoted path.  A line that is not of that form answers false.
     * An unterminated path is reported and yields no path; characters
     * after the closing quote other than blanks, '!' or the newline are
     * reported but the path stands.  The answer is then true.
     */
    method IncludeLine(p: nat) returns (r: bool, path: Option<seq<char>>)
      requires WellFormed() && p < |buffer|
      modifies this`messages
      ensures r <==> IncludeKeywordAt(p) && buffer[SkipBlanks(buffer, AfterKeyword(p))] in "\"'"
      ensures !r ==> path.None? && messages == old(messages)
      ensures r ==> IncludePathOutcome(SkipBlanks(buffer, AfterKeyword(p)), path, old(messages), messages)
    {
      if p >= limit {
        return false, None;
      }
      var q := SkipBlankRun(p);
      var matched := MatchKeyword(q);
      if !matched {
        assert !IncludeKeywordAt(p);
        return false, None;
      }
      assert IncludeKeywordAt(p) && AfterKeyword(p) == q + 7;
      q := SkipBlankRun(q + 7);
      if buffer[q] != '"' && buffer[q] != '\'' {
        return false, None;
      }
      path := IncludePath(q);
      return true, path;
    }

    /** The part of IncludeLine from the opening quote at q on. */
    method IncludePath(q: nat) returns (path: Option<seq<char>>)
      requires WellFormed() && q + 1 < |buffer| && buffer[q] in "\"'"
      modifies this`messages
      ensures IncludePathOutcome(q, path, old(messages), messages)
    {
      var quote := buffer[q];
      var e, text := ReadQuotedPath(q + 1, quote);
      if buffer[e] != quote {
        messages := messages + [MalformedPathName(e)];
        return None;
      }
      var after := SkipBlankRun(e + 1);
      if buffer[after] != '\n' && buffer[after] != '!' {
        messages := messages + [ExcessCharactersAfterPath(after)];
      }
      return Some(text);
    }

    /**
     * What IncludeLine does once the opening quote at q is found: with no
     * closing quote it reports a malformed path and yields none; otherwise
     * it yields the path and reports characters after it other than
     * blanks, '!' or the newline.
     */
    ghost predicate IncludePathOutcome(q: nat, path: Option<seq<char>>,
                                       before: seq<PrescanMessage>, after: seq<PrescanMessage>)
      requires WellFormed() && q + 1 < |buffer| && buffer[q] != '\n'
    {
      var (e, text) := Unquote(buffer, q + 1, buffer[q]);
      if buffer[e] == '\n' then path.None? && after == before + [MalformedPathName(e)]
      else
        var rest := SkipBlanks(buffer, e + 1);
        path == Some(text) &&
        after == before + (if buffer[rest] in "\n!" then [] else [ExcessCharactersAfterPath(rest)])
    }

    /**
     * A path written between quotes with its quotes doubled is what
     * IncludeLine yields from the opening quote at q.
     */
    lemma IncludeYieldsDoubledPath(q: nat, path: seq<char>, result: Option<seq<char>>,
                                   before: seq<PrescanMessage>, after: seq<PrescanMessage>)
      requires WellFormed() && q + 1 < |buffer| && buffer[q] in "\"'" && '\n' !in path
      requires q + 2 + |Doubled(path, buffer[q])| < |buffer|
      requires buffer[q + 1..q + 1 + |Doubled(path, buffer[q])|] == Doubled(path, buffer[q])
      requires buffer[q + 1 + |Doubled(path, buffer[q])|] == buffer[q]
      requires buffer[q + 2 + |Doubled(path, buffer[q])|] != buffer[q]
      requires IncludePathOutcome(q, result, before, after)
      ensures result == Some(path)
    {
      UnquoteDoubled(buffer, q + 1, buffer[q], path);
    }

    /** Whether the keyword INCLUDE, in any case, is at position k. */
    method MatchKeyword(k: nat) returns (matched: bool)
      requires WellFormed() && k < |buffer|
      ensures matched <==> k + 7 < |buffer| && forall j :: 0 <= j < 7 ==> ToLower(buffer[k + j]) == "include"[j]
    {
      var keyword := "include";
      var i := 0;
      while i < |keyword|
        invariant 0 <= i <= |keyword| && k + i < |buffer|
        invariant forall j :: 0 <= j < i ==> ToLower(buffer[k + j]) == keyword[j]
      {
        if ToLower(buffer[k + i]) != keyword[i] {
          return false;
        }
        assert buffer[k + i] != '\n';
        i := i + 1;
      }
      return true;
    }

    /** The quoted path from q0, just after the opening quote, and where its scan ends. */
    method ReadQuotedPath(q0: nat, quote: char) returns (e: nat, text: seq<char>)
      requires WellFormed() && q0 < |buffer| && quote != '\n'
      ensures e == Unquote(buffer, q0, quote).0 && text == Unquote(buffer, q0, quote).1
    {
      text := [];
      e := q0;
      while buffer[e] != '\n'
        invariant q0 <= e < |buffer|
        invariant Unquote(buffer, q0, quote).0 == Unquote(buffer, e, quote).0
        invariant Unquote(buffer, q0, quote).1 == text + Unquote(buffer, e, quote).1
        decreases |buffer| - e
      {
        if buffer[e] == quote {
          if buffer[e + 1] != quote {
            break;
          }
          e := e + 1;
        }
        text := text + [buffer[e]];
        e := e + 1;
      }
    }

    /** The keyword INCLUDE, in any case, after the blanks that start the line at p. */
    ghost predicate IncludeKeywordAt(p: nat)
      requires WellFormed() && p < |buffer|
    {
      p < limit &&
      var k := SkipBlanks(buffer, p);
      k + 7 < |buffer| && forall j :: 0 <= j < 7 ==> ToLower(buffer[k + j]) == "include"[j]
    }

    /** The position just after the keyword INCLUDE, or p when the line does not start with it. */
    ghost function AfterKeyword(p: nat): (r: nat)
      requires WellFormed() && p < |buffer|
      ensures r < |buffer|
    {
      if IncludeKeywordAt(p) then SkipBlanks(buffer, p) + 7 else p
    }

    /**
     * IsPreprocessorDirectiveLine(start): a '#' after leading spaces,
     * except in fixed form when it is exactly in column 6; failing that, a
     * '#' after leading spaces and tabs.
     */
    method IsPreprocessorDirectiveLine(start: nat) returns (r: bool)
      requires WellFormed() && start < |buffer|
      ensures r == PreprocessorDirective(start)
    {
      var p := start;
      if p >= limit {
        return false;
      }
      while buffer[p] == ' '
        invariant start <= p <= SkipSpaces(buffer, start)
        decreases |buffer| - p
      {
        p := p + 1;
      }
      if buffer[p] == '#' {
        return !inFixedForm || p != start + 5;
      }
      ghost var s := p;
      p := SkipBlankRun(p);
      return buffer[p] == '#';
    }

    /** The classification IsPreprocessorDirectiveLine computes. */
    ghost predicate PreprocessorDirective(start: nat)
      reads this
      requires WellFormed() && start < |buffer|
    {
      start < limit &&
      var s := SkipSpaces(buffer, start);
      if buffer[s] == '#' then !inFixedForm || s != start + 5
      else buffer[SkipBlanks(buffer, s)] == '#'
    }

    /**
     * A '#' after leading blanks makes a directive line, except in fixed
     * form when the blanks are exactly five spaces, which puts the '#' in
     * column 6, the continuation column.
     */
    lemma DirectiveAfterBlanks(start: nat, k: nat)
      requires WellFormed() && start <= k < |buffer| && start < limit
      requires forall i :: start <= i < k ==> IsBlank(buffer[i])
      requires buffer[k] == '#'
      ensures PreprocessorDirective(start) <==>
        !(inFixedForm && k == start + 5 && forall i :: start <= i < k ==> buffer[i] == ' ')
    {
      var s := SkipSpaces(buffer, start);
      if buffer[s] != '#' {
        assert s < k && buffer[s] == '\t';
        assert SkipBlanks(buffer, s) == k;
      } else {
        assert s == k;
      }
    }

    /**
     * FixedFormContinuationLine(): where the statement resumes when the
     * line at lineStart continues it, or None.  '&' in column 1 resumes
     * after it; a tab and a digit 1-9 resume after both (and record the
     * tab); five spaces and a column 6 other than newline, tab, space or
     * '0' resume at column 7; inside open delimiters the line resumes at
     * its start.
     */
    method FixedFormContinuationLine() returns (r: Option<nat>)
      requires WellFormed() && lineStart < |buffer|
      modifies this`tabInCurrentLine
      ensures var p := lineStart;
        var b := buffer;
        if p >= limit then r.None? && tabInCurrentLine == old(tabInCurrentLine)
        else if b[p] == '&' then r == Some(p + 1) && !tabInCurrentLine
        else if b[p] == '\t' && '1' <= b[p + 1] <= '9' then r == Some(p + 2) && tabInCurrentLine
        else if p + 5 < |b| && b[p..p + 5] == "     " && b[p + 5] !in "\n\t 0" then
          r == Some(p + 6) && !tabInCurrentLine
        else r == (if delimiterNesting > 0 then Some(p) else None) && !tabInCurrentLine
      ensures r.Some? ==> (lineStart <= r.value <= lineStart + 6 &&
                           '\n' !in buffer[lineStart..r.value])
    {
      var p := lineStart;
      if p >= limit {
        return None;
      }
      tabInCurrentLine := false;
      if buffer[p] == '&' {
        return Some(p + 1);
      }
      if buffer[p] == '\t' && '1' <= buffer[p + 1] <= '9' {
        tabInCurrentLine := true;
        return Some(p + 2);
      }
      ghost var fiveSpaces := p + 5 < |buffer| && buffer[p..p + 5] == "     ";
      if buffer[p] == ' ' && buffer[p + 1] == ' ' && buffer[p + 2] == ' ' &&
         buffer[p + 3] == ' ' && buffer[p + 4] == ' ' {
        assert buffer[p..p + 5] == "     ";
        var col6 := buffer[p + 5];
        if col6 != '\n' && col6 != '\t' && col6 != ' ' && col6 != '0' {
          return Some(p + 6);
        }
      }
      assert fiveSpaces ==> buffer[p..p + 5][4] == buffer[p + 4] == ' ';
      if delimiterNesting > 0 {
        return Some(p);
      }
      return None;
    }

    /**
     * Whether s is a compiler-directive sentinel: not empty, both of its
     * hashes in the bloom filter, and in the set.
     */
    predicate Recognizes(s: seq<char>)
      reads this
      requires WellFormed()
    {
      Recognized(bloomFilter, sentinels, prime1, prime2, s)
    }

    /**
     * IsCompilerDirectiveSentinel(s): s is a C string, so only the
     * characters before its first '\0' count.
     */
    method IsCompilerDirectiveSentinel(s: seq<char>) returns (r: bool)
      requires WellFormed()
      ensures r == Recognizes(s[..CStringLength(s)])
      ensures r ==> s[..CStringLength(s)] in sentinels && CStringLength(s) > 0
    {
      var packed := 0;
      var n := 0;
      while n < |s| && s[n] != '\0'
        invariant 0 <= n <= |s| && '\0' !in s[..n]
        invariant packed == Pack(s[..n])
      {
        assert s[..n + 1][..n] == s[..n];
        packed := (packed * 256 + (s[n] as int % 256)) % 0x1_0000_0000_0000_0000;
        n := n + 1;
      }
      assert n == CStringLength(s);
      return n > 0 && packed % prime1 in bloomFilter && packed % prime2 in bloomFilter &&
        s[..n] in sentinels;
    }

    /**
     * AddCompilerDirectiveSentinel(dir): hashes the lower-cased sentinel
     * into the bloom filter but keeps dir itself, as given, in the set.
     */
    method AddCompilerDirectiveSentinel(dir: seq<char>)
      requires WellFormed()
      modifies this`bloomFilter, this`sentinels
      ensures bloomFilter == old(bloomFilter) + {Pack(Lowered(dir)) % prime1, Pack(Lowered(dir)) % prime2}
      ensures sentinels == old(sentinels) + {dir}
    {
      var packed := PackLowered(dir);
      bloomFilter := bloomFilter + {packed % prime1, packed % prime2};
      sentinels := sentinels + {dir};
    }

    /**
     * IsFreeFormCompilerDirectiveLine(start): free form, '!' after blanks,
     * then one to four characters ended by a blank, lower-cased, that are
     * a sentinel.  A blank right after '!', a newline, '&', or five
     * non-blank characters make it false.  The sentinel read is returned.
     */
    method IsFreeFormCompilerDirectiveLine(start: nat) returns (r: bool, sentinel: seq<char>)
      requires WellFormed() && start < |buffer|
      ensures r == FreeFormDirective(start)
      ensures r ==> 1 <= |sentinel| <= 4 && Recognizes(sentinel[..CStringLength(sentinel)])
    {
      sentinel := [];
      if start >= limit || inFixedForm {
        return false, [];
      }
      var p := start;
      p := SkipBlankRun(p);
      if buffer[p] != '!' {
        return false, [];
      }
      ghost var bang := p;
      p := p + 1;
      var j := 0;
      while j < 5
        invariant 0 <= j <= 5 && p == bang + 1 + j && p <= WordEnd(buffer, bang + 1)
        invariant sentinel == LoweredRange(buffer, bang + 1, p)
      {
        if buffer[p] == '\n' || buffer[p] == '&' {
          break;
        }
        if buffer[p] == ' ' || buffer[p] == '\t' {
          if j == 0 {
            break;
          }
          r := IsCompilerDirectiveSentinel(sentinel);
          return r, sentinel;
        }
        sentinel := sentinel + [ToLower(buffer[p])];
        p := p + 1;
        j := j + 1;
      }
      return false, sentinel;
    }

    /**
     * The classification IsFixedFormCompilerDirectiveLine computes when it
     * reads the four sentinel columns from position first: fixed form, '*',
     * 'C', 'c' or '!' in column 1, no newline or tab in those columns, a
     * space or '0' in column 6, and the non-blank characters read,
     * lower-cased, a recognised sentinel.  The intended columns are 2-5
     * (first == start + 1); the code reads columns 3-6 (first == start + 2).
     */
    ghost predicate FixedFormDirective(start: nat, first: nat)
      reads this
      requires WellFormed() && start < |buffer| && (first == start + 1 || first == start + 2)
    {
      start < limit && inFixedForm && buffer[start] in "*Cc!" && start + 5 < |buffer| &&
      (forall k :: first <= k < first + 4 ==> buffer[k] != '\n' && buffer[k] != '\t') &&
      (buffer[start + 5] == ' ' || buffer[start + 5] == '0') &&
      var w := SentinelOf(buffer, first, first + 4);
      Recognizes(w[..CStringLength(w)])
    }

    /**
     * IsFixedFormCompilerDirectiveLine(start) as written: after `++p` the
     * loop reads `*++p`, so the first sentinel character is taken from
     * column 3 and column 6 is read both as a sentinel character and as
     * the continuation column.  The code reads past the line when column 2
     * holds its newline; the model asks for the six columns to exist.
     */
    method IsFixedFormCompilerDirectiveLineAsWritten(start: nat) returns (r: bool, sentinel: seq<char>)
      requires WellFormed() && start + 5 < |buffer|
      ensures r == FixedFormDirective(start, start + 2)
    {
      sentinel := [];
      if start >= limit || !inFixedForm {
        return false, [];
      }
      var c1 := buffer[start];
      if !(c1 == '*' || c1 == 'C' || c1 == 'c' || c1 == '!') {
        return false, [];
      }
      var clear;
      clear, sentinel := ReadSentinelColumns(start + 2);
      if !clear {
        return false, sentinel;
      }
      if buffer[start + 5] != ' ' && buffer[start + 5] != '0' {
        return false, sentinel;
      }
      r := IsCompilerDirectiveSentinel(sentinel);
    }

    /**
     * IsFixedFormCompilerDirectiveLine(start) reading the sentinel from
     * columns 2-5 and then checking column 6 for a continuation mark.
     */
    method IsFixedFormCompilerDirectiveLine(start: nat) returns (r: bool, sentinel: seq<char>)
      requires WellFormed() && start < |buffer|
      ensures r == FixedFormDirective(start, start + 1)
      ensures r ==> |sentinel| <= 4 && Recognizes(sentinel[..CStringLength(sentinel)])
    {
      sentinel := [];
      if start >= limit || !inFixedForm {
        return false, [];
      }
      var c1 := buffer[start];
      if !(c1 == '*' || c1 == 'C' || c1 == 'c' || c1 == '!') {
        return false, [];
      }
      var clear;
      clear, sentinel := ReadSentinelColumns(start + 1);
      if !clear {
        return false, sentinel;
      }
      if buffer[start + 5] != ' ' && buffer[start + 5] != '0' {
        return false, sentinel;
      }
      r := IsCompilerDirectiveSentinel(sentinel);
    }

    /**
     * The loop over the four sentinel columns from first: false at a
     * newline or tab, otherwise the non-blank characters, lower-cased.
     */
    method ReadSentinelColumns(first: nat) returns (clear: bool, sentinel: seq<char>)
      requires WellFormed() && first < |buffer|
      ensures clear <==> (first + 4 < |buffer| &&
                          forall k :: first <= k < first + 4 ==> buffer[k] != '\n' && buffer[k] != '\t')
      ensures clear ==> sentinel == SentinelOf(buffer, first, first + 4)
    {
      sentinel := [];
      var p := first;
      while p < first + 4
        invariant first <= p <= first + 4 && p < |buffer|
        invariant forall k :: first <= k < p ==> buffer[k] != '\n' && buffer[k] != '\t'
        invariant sentinel == SentinelOf(buffer, first, p)
      {
        var ch := buffer[p];
        if ch == '\n' || ch == '\t' {
          return false, sentinel;
        }
        if ch != ' ' {
          sentinel := sentinel + [ToLower(ch)];
        }
        p := p + 1;
      }
      return true, sentinel;
    }

    /**
     * With "$omp" the only sentinel, the fixed-form line "!$omp x" is not
     * a directive line as written, which looks up "omp" ...
     */
    lemma FixedFormDirectiveColumnsCounterexample()
      requires WellFormed() && buffer == "!$omp x\n" && limit > 0 && inFixedForm
      requires sentinels == {"$omp"} && Recognizes("$omp")
      ensures !FixedFormDirective(0, 2)
    {
      assert SentinelOf(buffer, 2, 6) == "omp" by {
        assert SentinelOf(buffer, 2, 3) == "o";
        assert SentinelOf(buffer, 2, 4) == "om";
        assert SentinelOf(buffer, 2, 5) == "omp";
      }
      assert CStringLength("omp") == 3 by {
        assert "omp"[1..] == "mp" && "mp"[1..] == "p" && "p"[1..] == [];
      }
      assert "omp"[..3] == "omp";
    }

    /** ... but is one when columns 2-5 are read. */
    lemma FixedFormDirectiveColumnsCorrected()
      requires WellFormed() && buffer == "!$omp x\n" && limit > 0 && inFixedForm
      requires Recognizes("$omp")
      ensures FixedFormDirective(0, 1)
    {
      assert buffer[0] == '!' && buffer[5] == ' ';
      assert forall k :: 1 <= k < 5 ==> buffer[k] != '\n' && buffer[k] != '\t';
      assert SentinelOf(buffer, 1, 5) == "$omp" by {
        assert SentinelOf(buffer, 1, 2) == "$";
        assert SentinelOf(buffer, 1, 3) == "$o";
        assert SentinelOf(buffer, 1, 4) == "$om";
      }
      assert CStringLength("$omp") == 4 by {
        assert "$omp"[1..] == "omp" && "omp"[1..] == "mp" && "mp"[1..] == "p" && "p"[1..] == [];
      }
      assert "$omp"[..4] == "$omp";
    }

    /**
     * In fixed form, a line that holds only blanks up to its newline is a
     * comment line.
     */
    lemma BlankFixedFormLineIsComment(start: nat, nl: nat)
      requires WellFormed() && start <= nl < |buffer| && start < limit && inFixedForm
      requires forall k :: start <= k < nl ==> IsBlank(buffer[k])
      requires buffer[nl] == '\n'
      ensures FixedFormComment(start)
    {
      var e := FixedBlankRun(buffer, start, start);
      assert !FixedBlankAt(buffer, start, nl);
      if e < nl {
        assert false;
      }
    }

    /**
     * The classification IsFreeFormCompilerDirectiveLine computes: free
     * form, '!' after the leading blanks, then a word of one to four
     * characters ended by a blank whose lower-cased form, as a C string,
     * is a recognised sentinel.
     */
    ghost predicate FreeFormDirective(start: nat)
      requires WellFormed() && start < |buffer|
      reads this
    {
      start < limit && !inFixedForm &&
      var bang := SkipBlanks(buffer, start);
      buffer[bang] == '!' &&
      var e := WordEnd(buffer, bang + 1);
      var w := LoweredRange(buffer, bang + 1, e);
      1 <= |w| <= 4 && IsBlank(buffer[e]) && Recognizes(w[..CStringLength(w)])
    }
  }

  /** The first position at or after i that holds a blank, '&' or the newline. */
  function WordEnd(b: seq<char>, i: nat): (r: nat)
    requires Terminated(b) && i < |b|
    ensures i <= r < |b| && b[r] in " \t\n&"
    ensures forall k :: i <= k < r ==> b[k] !in " \t\n&"
    decreases |b| - i
  {
    if b[i] !in " \t\n&" then WordEnd(b, i + 1) else i
  }

  /** The length of a C string: the characters before its first '\0'. */
  function CStringLength(s: seq<char>): (n: nat)
    ensures n <= |s| && '\0' !in s[..n]
    ensures n < |s| ==> s[n] == '\0'
  {
    if s == [] || s[0] == '\0' then 0
    else
      var n := 1 + CStringLength(s[1..]);
      assert s[..n] == [s[0]] + s[1..][..n - 1];
      n
  }
  /**
   * Whether s is a recognised compiler-directive sentinel given the bloom
   * filter and the set: not empty, both hashes in the filter, and in the set.
   */
  predicate Recognized(bloom: set<nat>, sentinels: set<seq<char>>, prime1: nat, prime2: nat, s: seq<char>)
    requires prime1 > 0 && prime2 > 0
  {
    |s| > 0 && Pack(s) % prime1 in bloom && Pack(s) % prime2 in bloom && s in sentinels
  }

  predicate NoUpperCase(s: seq<char>) {
    forall i :: 0 <= i < |s| ==> !('A' <= s[i] <= 'Z')
  }

  /** Adding a sentinel written in lower case makes it recognised. */
  lemma LowerCaseSentinelRecognized(bloom: set<nat>, sentinels: set<seq<char>>, prime1: nat, prime2: nat,
                                    dir: seq<char>)
    requires prime1 > 0 && prime2 > 0 && |dir| > 0 && NoUpperCase(dir)
    ensures Recognized(bloom + {Pack(Lowered(dir)) % prime1, Pack(Lowered(dir)) % prime2},
                       sentinels + {dir}, prime1, prime2, dir)
  {
    assert Lowered(dir) == dir;
  }

  /**
   * A sentinel added with an upper-case letter is kept in the set as
   * written, so no lower-cased sentinel read from a line (both
   * classifiers lower-case what they read) is recognised because of it.
   */
  lemma MixedCaseSentinelUnreachable(bloom: set<nat>, sentinels: set<seq<char>>, prime1: nat, prime2: nat,
                                     dir: seq<char>, s: seq<char>)
    requires prime1 > 0 && prime2 > 0 && !NoUpperCase(dir) && NoUpperCase(s)
    requires Recognized(bloom + {Pack(Lowered(dir)) % prime1, Pack(Lowered(dir)) % prime2},
                        sentinels + {dir}, prime1, prime2, s)
    ensures s in sentinels
  {
    assert s != dir;
  }

  /** The sentinels both classifiers read from a line hold no upper-case letter. */
  lemma {:induction false} SentinelsReadHaveNoUpperCase(b: seq<char>, i: nat, j: nat)
    requires i <= j <= |b|
    ensures NoUpperCase(SentinelOf(b, i, j)) && NoUpperCase(LoweredRange(b, i, j))
    decreases j
  {
    if j > i {
      SentinelsReadHaveNoUpperCase(b, i, j - 1);
    }
  }

  /** The characters of b[i..j] other than spaces, lower-cased, in order. */
  function SentinelOf(b: seq<char>, i: nat, j: nat): (r: seq<char>)
    requires i <= j <= |b|
    ensures |r| <= j - i && ' ' !in r
    decreases j
  {
    if j == i then []
    else SentinelOf(b, i, j - 1) + if b[j - 1] == ' ' then [] else [ToLower(b[j - 1])]
  }

  /** The characters of b[i..j], lower-cased. */
  function LoweredRange(b: seq<char>, i: nat, j: nat): (r: seq<char>)
    requires i <= j <= |b|
    ensures |r| == j - i
    decreases j
  {
    if j == i then [] else LoweredRange(b, i, j - 1) + [ToLower(b[j - 1])]
  }
}
