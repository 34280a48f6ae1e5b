/**
 * `preproc`: one source line cut into a command and its integer operands.
 *
 * The regular expression `[a-zA-Z]+|[-+]?\d+` that `re.findall` applies is
 * modelled as a scanner over the characters of the line: at each position a
 * letter starts a maximal run of letters, a digit (or a sign followed by a
 * digit) starts a sign and a maximal run of digits, and any other character
 * is passed over.
 */
module Tokenizer {
  import opened Outcomes
  import opened Diagnostics
  import opened Decimal

  predicate IsLetter(c: char) { 'a' <= c <= 'z' || 'A' <= c <= 'Z' }

  predicate IsSign(c: char) { c == '+' || c == '-' }

  predicate AllLetters(s: string) { forall k :: 0 <= k < |s| ==> IsLetter(s[k]) }

  /** A string the scanner can produce: a run of letters, or an optional sign and a run of digits. */
  predicate IsRun(t: string)
  {
    |t| >= 1 &&
    (AllLetters(t) || AllDigits(t) || (|t| >= 2 && IsSign(t[0]) && AllDigits(t[1..])))
  }

  // ------------------------------------------------------------ comments

  /** The comment marker `//` starts at index k of s. */
  predicate CommentAt(s: string, k: nat) { k + 1 < |s| && s[k] == '/' && s[k + 1] == '/' }

  /**
   * `line[:line.find("//")]` when the line holds `//`, the line itself
   * otherwise: the longest prefix before the first comment marker.
   */
  function StripComment(s: string): (r: string)
    ensures |r| <= |s| && r == s[..|r|]
    ensures forall k :: 0 <= k < |r| ==> !CommentAt(s, k)
    ensures r == s || CommentAt(s, |r|)
  {
    if |s| < 2 then s
    else if s[0] == '/' && s[1] == '/' then []
    else
      var t := StripComment(s[1..]);
      assert forall k :: 1 <= k <= |t| ==> (CommentAt(s, k) <==> CommentAt(s[1..], k - 1));
      [s[0]] + t
  }

  // ------------------------------------------------------------- scanning

  /** A match of `[a-zA-Z]+|[-+]?\d+` begins at the start of s: a letter, a digit, or a sign before a digit. */
  predicate StartsRun(s: string)
  {
    s != [] && (IsLetter(s[0]) || IsDigit(s[0]) || (|s| >= 2 && IsSign(s[0]) && IsDigit(s[1])))
  }

  /** The character c would extend the run t. */
  predicate Extends(t: string, c: char)
    requires |t| >= 1
  {
    if IsLetter(t[0]) then IsLetter(c) else IsDigit(c)
  }

  /**
   * The length of the match of `[a-zA-Z]+|[-+]?\d+` at the start of s; 0 when
   * there is none. The match is a run and is maximal: the next character
   * cannot extend it.
   */
  function MatchLength(s: string): (n: nat)
    ensures n <= |s|
    ensures n == 0 <==> !StartsRun(s)
    ensures n > 0 ==> IsRun(s[..n])
    ensures 0 < n < |s| ==> !Extends(s[..n], s[n])
  {
    if s == [] then 0
    else if IsLetter(s[0]) then Span(s, IsLetter)
    else if IsDigit(s[0]) then Span(s, IsDigit)
    else if |s| >= 2 && IsSign(s[0]) && IsDigit(s[1]) then
      var n := 1 + Span(s[1..], IsDigit);
      assert s[..n][1..] == s[1..][..n - 1];
      n
    else 0
  }

  /** `re.findall(r"[a-zA-Z]+|[-+]?\d+", s)`: the runs of s from left to right. */
  function Runs(s: string): (rs: seq<string>)
    ensures forall k :: 0 <= k < |rs| ==> IsRun(rs[k])
    decreases |s|
  {
    if s == [] then []
    else
      var n := MatchLength(s);
      if n == 0 then Runs(s[1..]) else [s[..n]] + Runs(s[n..])
  }

  // -------------------------------------------------------------- integers

  /**
   * `int(t)` on a run: an optional sign and ASCII digits give a number, a run
   * of letters gives nothing (where Python raises).
   */
  function ParseInt(t: string): Option<int>
  {
    if |t| >= 1 && AllDigits(t) then Some(DigitsValue(t))
    else if |t| >= 2 && IsSign(t[0]) && AllDigits(t[1..]) then
      Some(if t[0] == '-' then -(DigitsValue(t[1..]) as int) else DigitsValue(t[1..]))
    else None
  }

  /** `str(n)`, with a leading `-` for a negative n. */
  function IntString(n: int): (s: string)
    ensures IsRun(s)
  {
    if n < 0 then "-" + DecString(-n) else DecString(n)
  }

  /**
   * The operand runs read from left to right: every value, or the first run
   * that is not an integer (the token `ValueError` carries).
   */
  function ParseAll(ts: seq<string>): (r: Result<seq<int>, string>)
    ensures r.Ok? <==> forall k :: 0 <= k < |ts| ==> ParseInt(ts[k]).Some?
    ensures r.Ok? ==> |r.value| == |ts| && forall k :: 0 <= k < |ts| ==> Some(r.value[k]) == ParseInt(ts[k])
    ensures r.Err? ==> exists k :: 0 <= k < |ts| && ts[k] == r.error && ParseInt(ts[k]).None? &&
                                   forall j :: 0 <= j < k ==> ParseInt(ts[j]).Some?
  {
    if ts == [] then Ok([])
    else match ParseInt(ts[0])
      case None => Err(ts[0])
      case Some(v) =>
        match ParseAll(ts[1..])
        case Err(t) => Err(t)
        case Ok(vs) => Ok([v] + vs)
  }

  // ------------------------------------------------------------ upper case

  function UpperChar(c: char): char
  {
    if 'a' <= c <= 'z' then (c as int - 'a' as int + 'A' as int) as char else c
  }

  /** `str.upper` on ASCII text. */
  function Upper(s: string): (u: string)
    ensures |u| == |s| && forall k :: 0 <= k < |s| ==> u[k] == UpperChar(s[k])
  {
    seq(|s|, k requires 0 <= k < |s| => UpperChar(s[k]))
  }

  // ------------------------------------------------------------------ lines

  /** A line cut into its command (upper-cased) and its operands, in order of appearance. */
  datatype Parsed = Parsed(cmd: string, args: seq<int>)

  /**
   * What `preproc(line)` returns or raises. It raises when the line without
   * its comment holds no run (the unpacking `head, *tail` fails) and when an
   * operand run is not an integer.
   */
  function Tokenize(line: string): (r: Result<Parsed, Diagnostic>)
    ensures r.Ok? ==> r.value.cmd != []
    ensures r.Err? ==> r.error.BadArgument?
  {
    var runs := Runs(StripComment(line));
    if runs == [] then Err(BadArgument(NoTokens))
    else match ParseAll(runs[1..])
      case Err(t) => Err(BadArgument(NotAnInteger(t)))
      case Ok(args) => Ok(Parsed(Upper(runs[0]), args))
  }

  /** `preproc`, with its loop over the operand runs. */
  method Preproc(line: string) returns (r: Result<Parsed, Diagnostic>)
    ensures r == Tokenize(line)
  {
    var runs := Runs(StripComment(line));
    if runs == [] {
      return Err(BadArgument(NoTokens));
    }
    var head, tail := runs[0], runs[1..];
    var cmd := Upper(head);
    var args: seq<int> := [];
    var i := 0;
    while i < |tail|
      invariant 0 <= i <= |tail|
      invariant |args| == i
      invariant forall k :: 0 <= k < i ==> ParseInt(tail[k]) == Some(args[k])
    {
      match ParseInt(tail[i]) {
        case None =>
          return Err(BadArgument(NotAnInteger(tail[i])));
        case Some(v) =>
          args := args + [v];
      }
      i := i + 1;
    }
    assert ParseAll(tail).value == args;
    return Ok(Parsed(cmd, args));
  }

  // ----------------------------------------------------------------- lemmas

  /**
   * Everything from the first `//` on is ignored: a line with no marker of
   * its own, followed by `//` and any text, reads as the line alone.
   */
  lemma CommentIgnored(a: string, comment: string)
    requires StripComment(a) == a
    requires a == [] || a[|a| - 1] != '/'
    ensures StripComment(a + "//" + comment) == a
    ensures Tokenize(a + "//" + comment) == Tokenize(a)
  {
    var s := a + "//" + comment;
    var r := StripComment(s);
    assert CommentAt(s, |a|);
    assert forall k :: 0 <= k < |a| - 1 ==> (CommentAt(s, k) <==> CommentAt(a, k));
    assert |a| >= 1 ==> !CommentAt(s, |a| - 1);
    assert |r| == |a|;
    assert a == s[..|a|];
  }

  /** A run is matched whole when the next character cannot extend it. */
  lemma MatchRun(t: string, rest: string)
    requires IsRun(t)
    requires rest == [] || !Extends(t, rest[0])
    ensures MatchLength(t + rest) == |t|
  {
    var s := t + rest;
    assert forall k :: 0 <= k < |t| ==> s[k] == t[k];
    if rest != [] {
      assert s[|t|] == rest[0];
    }
    if AllLetters(t) {
      assert IsLetter(s[0]);
      assert forall k :: 0 <= k < |t| ==> IsLetter(s[k]);
    } else if AllDigits(t) {
      assert forall k :: 0 <= k < |t| ==> IsDigit(s[k]);
    } else {
      assert IsDigit(t[1..][0]);
      assert forall k :: 0 <= k < |t| - 1 ==> IsDigit(s[1..][k]);
    }
  }

  /** A run at the front of a line is the first run found. */
  lemma TakeRun(t: string, rest: string)
    requires IsRun(t)
    requires rest == [] || !Extends(t, rest[0])
    ensures Runs(t + rest) == [t] + Runs(rest)
  {
    MatchRun(t, rest);
    var s := t + rest;
    assert s[..|t|] == t && s[|t|..] == rest;
  }

  /** A character that starts no run is passed over. */
  lemma SkipChar(c: char, rest: string)
    requires !IsLetter(c) && !IsDigit(c)
    requires !(IsSign(c) && rest != [] && IsDigit(rest[0]))
    ensures Runs([c] + rest) == Runs(rest)
  {
    assert ([c] + rest)[1..] == rest;
  }

  /** Text between two runs: characters that start no run, none of them `/`. */
  predicate IsGap(g: string)
  {
    forall k :: 0 <= k < |g| ==> !IsLetter(g[k]) && !IsDigit(g[k]) && !IsSign(g[k]) && g[k] != '/'
  }

  /**
   * A line written as runs, each followed by its gap. An empty gap is allowed
   * where the next run cannot extend the previous one, as in `R1`.
   */
  predicate WellJoined(ts: seq<string>, gaps: seq<string>)
  {
    |gaps| == |ts| &&
    (ts != [] ==>
      IsRun(ts[0]) && IsGap(gaps[0]) &&
      (gaps[0] == [] && |ts| > 1 ==> ts[1] != [] && !Extends(ts[0], ts[1][0])) &&
      WellJoined(ts[1..], gaps[1..]))
  }

  function Joined(ts: seq<string>, gaps: seq<string>): string
    requires |gaps| == |ts|
  {
    if ts == [] then [] else ts[0] + gaps[0] + Joined(ts[1..], gaps[1..])
  }

  lemma {:induction false} SkipGap(g: string, rest: string)
    requires IsGap(g)
    ensures Runs(g + rest) == Runs(rest)
    decreases |g|
  {
    if g != [] {
      assert g + rest == [g[0]] + (g[1..] + rest);
      assert IsGap(g[1..]);
      var rest' := g[1..] + rest;
      assert rest' != [] && IsDigit(rest'[0]) ==> !IsSign(g[0]);
      SkipChar(g[0], rest');
      SkipGap(g[1..], rest);
      assert Runs(g + rest) == Runs(rest');
    } else {
      assert g + rest == rest;
    }
  }

  /** A run, then its gap, then text the run cannot extend. */
  lemma TakeRunGap(t: string, g: string, rest: string)
    requires IsRun(t) && IsGap(g)
    requires g == [] && rest != [] ==> !Extends(t, rest[0])
    ensures Runs(t + g + rest) == [t] + Runs(rest)
  {
    assert t + g + rest == t + (g + rest);
    if g == [] {
      assert g + rest == rest;
    } else {
      assert (g + rest)[0] == g[0];
    }
    TakeRun(t, g + rest);
    SkipGap(g, rest);
  }

  /** A line written as runs and gaps starts with the first character of its first run. */
  lemma JoinedHead(ts: seq<string>, gaps: seq<string>)
    requires WellJoined(ts, gaps) && ts != []
    ensures Joined(ts, gaps) != [] && Joined(ts, gaps)[0] == ts[0][0]
  {
    var rest := Joined(ts[1..], gaps[1..]);
    assert Joined(ts, gaps) == ts[0] + (gaps[0] + rest);
  }

  /** The scanner gives back exactly the runs a line was written from, in order. */
  lemma {:induction false} RunsJoined(ts: seq<string>, gaps: seq<string>)
    requires WellJoined(ts, gaps)
    ensures Runs(Joined(ts, gaps)) == ts
  {
    if ts != [] {
      var ts', gaps' := ts[1..], gaps[1..];
      if ts' != [] {
        JoinedHead(ts', gaps');
      }
      TakeRunGap(ts[0], gaps[0], Joined(ts', gaps'));
      RunsJoined(ts', gaps');
      assert ts == [ts[0]] + ts';
    }
  }

  predicate NoSlash(s: string) { forall k :: 0 <= k < |s| ==> s[k] != '/' }

  lemma {:induction false} JoinedNoSlash(ts: seq<string>, gaps: seq<string>)
    requires WellJoined(ts, gaps)
    ensures NoSlash(Joined(ts, gaps))
  {
    if ts != [] {
      JoinedNoSlash(ts[1..], gaps[1..]);
      assert NoSlash(ts[0]) by {
        if !AllLetters(ts[0]) && !AllDigits(ts[0]) {
          assert forall k :: 1 <= k < |ts[0]| ==> ts[0][k] == ts[0][1..][k - 1];
        }
      }
    }
  }

  /** A line written as runs and gaps holds no comment and scans back to its runs. */
  lemma JoinedScan(ts: seq<string>, gaps: seq<string>)
    requires WellJoined(ts, gaps)
    ensures StripComment(Joined(ts, gaps)) == Joined(ts, gaps)
    ensures Runs(Joined(ts, gaps)) == ts
  {
    var line := Joined(ts, gaps);
    JoinedNoSlash(ts, gaps);
    assert forall k :: 0 <= k < |line| ==> !CommentAt(line, k);
    RunsJoined(ts, gaps);
  }

  /**
   * A line written as runs and gaps reads as its first run, upper-cased, and
   * the values of the others; the first of them that is not an integer is
   * reported otherwise.
   */
  lemma TokenizeJoined(ts: seq<string>, gaps: seq<string>)
    requires WellJoined(ts, gaps) && |ts| >= 1
    ensures Tokenize(Joined(ts, gaps)) ==
      match ParseAll(ts[1..])
      case Err(t) => Err(BadArgument(NotAnInteger(t)))
      case Ok(args) => Ok(Parsed(Upper(ts[0]), args))
  {
    JoinedScan(ts, gaps);
  }

  /** A minus sign before ASCII digits reads as the negated value. */
  lemma ParseNegative(d: string)
    requires |d| >= 1 && AllDigits(d)
    ensures ParseInt("-" + d) == Some(-(DigitsValue(d) as int))
  {
    var t := "-" + d;
    assert t[0] == '-' && t[1..] == d;
    assert !AllDigits(t) by { assert !IsDigit(t[0]); }
  }

  /** ASCII digits read as their value. */
  lemma ParseDigits(d: string)
    requires |d| >= 1 && AllDigits(d)
    ensures ParseInt(d) == Some(DigitsValue(d) as int)
  {
  }

  /** `int(str(n)) == n`. */
  lemma IntStringParses(n: int)
    ensures ParseInt(IntString(n)) == Some(n)
  {
    if n < 0 {
      var d := DecString(-n);
      DecStringValue(-n);
      ParseNegative(d);
      calc {
        ParseInt(IntString(n));
        ParseInt("-" + d);
        Some(-(DigitsValue(d) as int));
        Some(n);
      }
    } else {
      var d := DecString(n);
      DecStringValue(n);
      ParseDigits(d);
      calc {
        ParseInt(IntString(n));
        ParseInt(d);
        Some(DigitsValue(d) as int);
        Some(n);
      }
    }
  }

  /** A run is an integer exactly when it is not a run of letters: `R` in `R1` is rejected. */
  lemma RunIsInteger(t: string)
    requires IsRun(t)
    ensures ParseInt(t).Some? <==> !AllLetters(t)
  {
    if AllLetters(t) {
      assert !IsDigit(t[0]) && !IsSign(t[0]);
    }
  }

  // upper case

  lemma {:induction false} StripCommentUpper(s: string)
    ensures StripComment(Upper(s)) == Upper(StripComment(s))
    decreases |s|
  {
    var u := Upper(s);
    if |s| >= 2 {
      assert u[0] == '/' <==> s[0] == '/';
      assert u[1] == '/' <==> s[1] == '/';
      if !(s[0] == '/' && s[1] == '/') {
        assert u[1..] == Upper(s[1..]);
        StripCommentUpper(s[1..]);
        var t := StripComment(s[1..]);
        assert StripComment(u) == [u[0]] + Upper(t);
        assert Upper([s[0]] + t) == [UpperChar(s[0])] + Upper(t);
      }
    }
  }

  lemma {:induction false} SpanUpper(s: string, p: char -> bool)
    requires forall c :: p(UpperChar(c)) == p(c)
    ensures Span(Upper(s), p) == Span(s, p)
    decreases |s|
  {
    if s != [] {
      assert Upper(s)[1..] == Upper(s[1..]);
      SpanUpper(s[1..], p);
    }
  }

  lemma MatchLengthUpper(s: string)
    ensures MatchLength(Upper(s)) == MatchLength(s)
  {
    if s != [] {
      SpanUpper(s, IsLetter);
      SpanUpper(s, IsDigit);
      if |s| >= 2 {
        assert Upper(s)[1..] == Upper(s[1..]);
        SpanUpper(s[1..], IsDigit);
      }
    }
  }

  /** Every run upper-cased, in order. */
  function UpperAll(rs: seq<string>): (us: seq<string>)
    ensures |us| == |rs|
  {
    if rs == [] then [] else [Upper(rs[0])] + UpperAll(rs[1..])
  }

  /** The runs of the upper-cased line are the upper-cased runs. */
  lemma {:induction false} RunsUpper(s: string)
    ensures Runs(Upper(s)) == UpperAll(Runs(s))
    decreases |s|
  {
    if s != [] {
      MatchLengthUpper(s);
      var n := MatchLength(s);
      if n == 0 {
        assert Upper(s)[1..] == Upper(s[1..]);
        RunsUpper(s[1..]);
      } else {
        assert Upper(s)[..n] == Upper(s[..n]);
        assert Upper(s)[n..] == Upper(s[n..]);
        RunsUpper(s[n..]);
        var rs := [s[..n]] + Runs(s[n..]);
        assert rs[0] == s[..n] && rs[1..] == Runs(s[n..]);
      }
    }
  }

  lemma ParseIntUpper(t: string)
    requires IsRun(t)
    ensures ParseInt(Upper(t)) == ParseInt(t)
  {
    RunIsInteger(t);
    if AllLetters(t) {
      assert IsLetter(Upper(t)[0]);
    } else {
      assert Upper(t) == t;
    }
  }

  /**
   * Upper-casing the operand runs leaves their values alone; the run
   * reported as not an integer is reported upper-cased.
   */
  lemma {:induction false} ParseAllUpper(ts: seq<string>)
    requires forall k :: 0 <= k < |ts| ==> IsRun(ts[k])
    ensures ParseAll(UpperAll(ts)) == match ParseAll(ts)
      case Ok(vs) => Ok(vs)
      case Err(t) => Err(Upper(t))
  {
    if ts != [] {
      var us := UpperAll(ts);
      assert us[0] == Upper(ts[0]) && us[1..] == UpperAll(ts[1..]);
      ParseIntUpper(ts[0]);
      assert forall k :: 0 <= k < |ts| - 1 ==> ts[1..][k] == ts[k + 1];
      ParseAllUpper(ts[1..]);
    }
  }

  lemma UpperTwice(s: string)
    ensures Upper(Upper(s)) == Upper(s)
  {
  }

  /**
   * Letter case is irrelevant: a line and its upper-cased form parse to the
   * same command and operands, or are rejected for the same reason, the
   * offending run then upper-cased.
   */
  lemma TokenizeCaseInsensitive(line: string)
    ensures Tokenize(Upper(line)) == match Tokenize(line)
      case Err(BadArgument(NotAnInteger(t))) => Err(BadArgument(NotAnInteger(Upper(t))))
      case other => other
  {
    StripCommentUpper(line);
    var body := StripComment(line);
    RunsUpper(body);
    var rs := Runs(body);
    if rs != [] {
      var us := UpperAll(rs);
      assert us[0] == Upper(rs[0]) && us[1..] == UpperAll(rs[1..]);
      ParseAllUpper(rs[1..]);
      UpperTwice(rs[0]);
    }
  }

  // examples

  lemma ParseAllCons(t: string, ts: seq<string>, v: int, vs: seq<int>)
    requires ParseInt(t) == Some(v) && ParseAll(ts) == Ok(vs)
    ensures ParseAll([t] + ts) == Ok([v] + vs)
  {
    assert ([t] + ts)[0] == t;
    assert ([t] + ts)[1..] == ts;
  }

  lemma ParseAllStops(t: string, ts: seq<string>)
    requires ParseInt(t) == None
    ensures ParseAll([t] + ts) == Err(t)
  {
    assert ([t] + ts)[0] == t;
  }

  lemma SmallIntegers()
    ensures ParseInt("1") == Some(1) && ParseInt("-1") == Some(-1) && ParseInt("2") == Some(2)
  {
    assert DigitsValue("1") == 1 by { assert "1"[..0] == ""; }
    assert DigitsValue("2") == 2 by { assert "2"[..0] == ""; }
    assert "-1"[1..] == "1";
  }

  lemma SmallOperands()
    ensures ParseAll(["1", "-1", "2"]) == Ok([1, -1, 2])
    ensures ParseAll(["1", "2"]) == Ok([1, 2])
  {
    SmallIntegers();
    assert ParseAll([]) == Ok([]);
    ParseAllCons("2", [], 2, []);
    assert ["2"] + [] == ["2"] && [2] + [] == [2];
    ParseAllCons("-1", ["2"], -1, [2]);
    assert ["-1"] + ["2"] == ["-1", "2"] && [-1] + [2] == [-1, 2];
    ParseAllCons("1", ["-1", "2"], 1, [-1, 2]);
    assert ["1"] + ["-1", "2"] == ["1", "-1", "2"] && [1] + [-1, 2] == [1, -1, 2];
    ParseAllCons("1", ["2"], 1, [2]);
    assert ["1"] + ["2"] == ["1", "2"] && [1] + [2] == [1, 2];
  }

  /** A line written as runs and gaps whose operand runs are all integers. */
  lemma TokenizeJoinedOk(ts: seq<string>, gaps: seq<string>, args: seq<int>)
    requires WellJoined(ts, gaps) && |ts| >= 1 && ParseAll(ts[1..]) == Ok(args)
    ensures Tokenize(Joined(ts, gaps)) == Ok(Parsed(Upper(ts[0]), args))
  {
    TokenizeJoined(ts, gaps);
  }

  lemma DisplacementShape()
    ensures WellJoined(["LD", "1", "-1", "2"], [" ", ",", "(", ")"])
    ensures Joined(["LD", "1", "-1", "2"], [" ", ",", "(", ")"]) == "LD 1,-1(2)"
  {
  }

  lemma LowerCaseShape()
    ensures WellJoined(["add", "1", "2"], [" ", ",", " "])
    ensures Joined(["add", "1", "2"], [" ", ",", " "]) == "add 1,2 "
  {
  }

  lemma UpperCaseShape()
    ensures WellJoined(["ADD", "1", "2"], [" ", ",", ""])
    ensures Joined(["ADD", "1", "2"], [" ", ",", ""]) == "ADD 1,2"
  {
  }

  lemma RegisterNameShape()
    ensures WellJoined(["ADD", "R", "1", "R", "2"], [" ", "", ",", "", ""])
    ensures Joined(["ADD", "R", "1", "R", "2"], [" ", "", ",", "", ""]) == "ADD R1,R2"
  {
  }

  /** The displacement form `d(Rb)` gives its operands in reading order. */
  lemma DisplacementExample()
    ensures Tokenize("LD 1,-1(2)") == Ok(Parsed("LD", [1, -1, 2]))
  {
    var ts := ["LD", "1", "-1", "2"];
    DisplacementShape();
    SmallOperands();
    assert ts[1..] == ["1", "-1", "2"];
    TokenizeJoinedOk(ts, [" ", ",", "(", ")"], [1, -1, 2]);
    assert Upper("LD") == "LD";
  }

  /** `add 1,2 ` holds no comment marker. */
  lemma NoMarkerExample()
    ensures StripComment("add 1,2 ") == "add 1,2 "
  {
    LowerCaseShape();
    JoinedScan(["add", "1", "2"], [" ", ",", " "]);
  }

  /** `add 1,2 // x` reads as the part before its comment. */
  // The line and its comment are parameters fixed by `requires` rather than
  // literals in the `ensures`: applied to literal strings, Tokenize is unfolded
  // by the verifier far beyond what this proof needs.
  lemma CommentedLine(a: string, comment: string)
    requires a == "add 1,2 " && comment == " x"
    ensures Tokenize(a + "//" + comment) == Tokenize(a)
  {
    NoMarkerExample();
    CommentIgnored(a, comment);
  }

  /** `add 1,2 ` reads as the command `ADD` with operands 1 and 2. */
  lemma LowerCaseExample()
    ensures Tokenize("add 1,2 ") == Ok(Parsed("ADD", [1, 2]))
  {
    var ts := ["add", "1", "2"];
    LowerCaseShape();
    SmallOperands();
    assert ts[1..] == ["1", "2"];
    TokenizeJoinedOk(ts, [" ", ",", " "], [1, 2]);
    assert Upper("add") == "ADD";
  }

  /** `ADD 1,2` reads as the command `ADD` with operands 1 and 2. */
  lemma UpperCaseExample()
    ensures Tokenize("ADD 1,2") == Ok(Parsed("ADD", [1, 2]))
  {
    var ts := ["ADD", "1", "2"];
    UpperCaseShape();
    SmallOperands();
    assert ts[1..] == ["1", "2"];
    TokenizeJoinedOk(ts, [" ", ",", ""], [1, 2]);
    assert Upper("ADD") == "ADD";
  }

  /** A comment and letter case make no difference. */
  /** The commented line is the plain line, the marker and the comment. */
  lemma CommentedText()
    ensures "add 1,2 " + "//" + " x" == "add 1,2 // x"
  {
  }

  lemma CommentExample()
    ensures Tokenize("add 1,2 // x") == Tokenize("ADD 1,2") == Ok(Parsed("ADD", [1, 2]))
  {
    CommentedLine("add 1,2 ", " x");
    CommentedText();
    LowerCaseExample();
    UpperCaseExample();
  }

  lemma RegisterOperands()
    ensures ParseAll(["R", "1", "R", "2"]) == Err("R")
  {
    assert ParseInt("R") == None;
    ParseAllStops("R", ["1", "R", "2"]);
    assert ["R"] + ["1", "R", "2"] == ["R", "1", "R", "2"];
  }

  /** A register written `R1` is rejected at its `R`. */
  lemma RegisterNameExample()
    ensures Tokenize("ADD R1,R2") == Err(BadArgument(NotAnInteger("R")))
  {
    var ts := ["ADD", "R", "1", "R", "2"];
    RegisterNameShape();
    RegisterOperands();
    assert ts[1..] == ["R", "1", "R", "2"];
    TokenizeJoined(ts, [" ", "", ",", "", ""]);
  }

  /** A blank line, or one that is all comment, holds no token. */
  lemma NoTokenExamples()
    ensures Tokenize("   ") == Err(BadArgument(NoTokens))
    ensures Tokenize("// only a comment") == Err(BadArgument(NoTokens))
  {
    var blank := "   ";
    assert StripComment(blank) == blank by {
      assert blank[1..] == "  " && "  "[1..] == " ";
    }
    assert blank == blank + [];
    SkipGap(blank, []);
    assert StripComment("// only a comment") == [];
  }
}
