/**
 * parseline: splits a command line into arguments. Runs of spaces separate
 * arguments; an argument that starts with a single quote runs to the next
 * single quote; a last argument whose first character is '&' is dropped and
 * asks for a background job. The routine is identical in both drafts.
 */
module Parse {
  import opened Wrappers

  /** A C string: it cannot hold a NUL character. */
  predicate IsCString(s: string) {
    forall k :: 0 <= k < |s| ==> s[k] != '\0'
  }

  /** The first position at or after i that is not a space (or the end). */
  function SkipSpaces(b: string, i: nat): (j: nat)
    requires i <= |b|
    ensures i <= j <= |b|
    ensures j < |b| ==> b[j] != ' '
    decreases |b| - i
  {
    if i < |b| && b[i] == ' ' then SkipSpaces(b, i + 1) else i
  }

  /** SkipSpaces stops at the first non-space. */
  lemma {:induction false} SkipSpacesFirst(b: string, i: nat, j: nat)
    requires i <= j <= |b| && (j < |b| ==> b[j] != ' ')
    requires forall k :: i <= k < j ==> b[k] == ' '
    ensures SkipSpaces(b, i) == j
    decreases j - i
  {
    if i < j {
      SkipSpacesFirst(b, i + 1, j);
    }
  }

  /** strchr: the first position at or after i that holds c. */
  function FindChar(b: string, c: char, i: nat): (r: Option<nat>)
    requires i <= |b|
    ensures r.Some? ==> i <= r.value < |b| && b[r.value] == c
    decreases |b| - i
  {
    if i == |b| then None
    else if b[i] == c then Some(i)
    else FindChar(b, c, i + 1)
  }

  /** strchr stops at the first occurrence. */
  lemma {:induction false} FindCharFirst(b: string, c: char, i: nat, j: nat)
    requires i <= j < |b| && b[j] == c
    requires forall k :: i <= k < j ==> b[k] != c
    ensures FindChar(b, c, i) == Some(j)
    decreases j - i
  {
    if i < j {
      FindCharFirst(b, c, i + 1, j);
    }
  }

  /**
   * Where the next argument starts and the delimiter that ends it, scanning
   * from i: leading spaces are skipped, a leading quote is stepped over and the
   * argument then ends at the next quote, otherwise it ends at the next space.
   */
  function NextArg(b: string, i: nat): (r: Option<(nat, nat)>)
    requires i <= |b|
    ensures r.Some? ==> i <= r.value.0 <= r.value.1 < |b|
  {
    var p := SkipSpaces(b, i);
    if p < |b| && b[p] == '\'' then
      match FindChar(b, '\'', p + 1)
      case None => None
      case Some(d) => Some((p + 1, d))
    else
      match FindChar(b, ' ', p)
      case None => None
      case Some(d) => Some((p, d))
  }

  /** The arguments found from position i on. */
  function ArgsFrom(b: string, i: nat): seq<string>
    requires i <= |b|
    decreases |b| - i
  {
    match NextArg(b, i)
    case None => []
    case Some((st, d)) => [b[st..d]] + ArgsFrom(b, d + 1)
  }

  /** The working copy: the line with its last character (the newline) replaced by a space. */
  function Buffer(cmdline: string): string
    requires |cmdline| >= 1
  {
    cmdline[..|cmdline| - 1] + " "
  }

  /** Whether an argument asks for a background job: its first character is '&'. */
  predicate IsAmpersand(a: string) {
    |a| > 0 && a[0] == '&'
  }

  /** What parseline leaves in argv (before the NULL that ends it) and returns. */
  function ParseResult(cmdline: string): (seq<string>, bool)
    requires |cmdline| >= 1
  {
    var args := ArgsFrom(Buffer(cmdline), 0);
    if |args| == 0 then ([], true)
    else if IsAmpersand(args[|args| - 1]) then (args[..|args| - 1], true)
    else (args, false)
  }

  /** After the spaces from q on have been skipped to p, the scan picks its delimiter from p. */
  lemma NextArgAt(b: string, q: nat, p: nat)
    requires q <= p <= |b| && SkipSpaces(b, q) == SkipSpaces(b, p)
    requires p < |b| ==> b[p] != ' '
    ensures NextArg(b, q) ==
      if p < |b| && b[p] == '\'' then
        (match FindChar(b, '\'', p + 1) case None => None case Some(d) => Some((p + 1, d)))
      else
        (match FindChar(b, ' ', p) case None => None case Some(d) => Some((p, d)))
  {
    assert SkipSpaces(b, p) == p;
  }

  lemma ArgsFromStep(b: string, q: nat)
    requires q <= |b|
    ensures NextArg(b, q).None? ==> ArgsFrom(b, q) == []
    ensures NextArg(b, q).Some? ==>
      ArgsFrom(b, q) == [b[NextArg(b, q).value.0..NextArg(b, q).value.1]] + ArgsFrom(b, NextArg(b, q).value.1 + 1)
  {
  }

  /**
   * The step parseline takes twice: from q, skip spaces; at a quote step over it
   * and look for the closing quote, otherwise look for the next space.
   */
  method ScanArg(buf: string, q: nat) returns (p: nat, delim: Option<nat>)
    requires q <= |buf|
    ensures q <= p <= |buf|
    ensures NextArg(buf, q) == if delim.Some? then Some((p, delim.value)) else None
  {
    p := q;
    while p < |buf| && buf[p] == ' '
      invariant q <= p <= |buf| && SkipSpaces(buf, q) == SkipSpaces(buf, p)
    {
      p := p + 1;
    }
    NextArgAt(buf, q, p);
    if p < |buf| && buf[p] == '\'' {
      p := p + 1;
      delim := FindChar(buf, '\'', p);
    } else {
      delim := FindChar(buf, ' ', p);
    }
  }

  /** No argument from q on, when the scan from q finds none. */
  lemma ArgsFromNone(b: string, q: nat)
    requires q <= |b| && NextArg(b, q).None?
    ensures ArgsFrom(b, q) == []
  {
  }

  /** The arguments from q on, when the scan from q finds one between st and d. */
  lemma ArgsFromAt(b: string, q: nat, st: nat, d: nat, next: nat, x: string)
    requires q <= |b| && NextArg(b, q) == Some((st, d)) && b[st..d] == x && next == d + 1
    ensures ArgsFrom(b, q) == [x] + ArgsFrom(b, next)
  {
  }

  /** Nothing but spaces from i on holds no argument. */
  lemma ArgsFromBlank(b: string, i: nat)
    requires i <= |b| && forall k :: i <= k < |b| ==> b[k] == ' '
    ensures ArgsFrom(b, i) == []
  {
    SkipSpacesFirst(b, i, |b|);
    assert NextArg(b, i).None?;
  }

  /** Taking the next argument off the front keeps what is collected plus what remains the same. */
  lemma ArgsStep(b: string, q: nat, argv: seq<string>)
    requires q <= |b| && NextArg(b, q).Some?
    ensures argv + ArgsFrom(b, q) ==
      (argv + [b[NextArg(b, q).value.0..NextArg(b, q).value.1]]) + ArgsFrom(b, NextArg(b, q).value.1 + 1)
  {
    ArgsFromStep(b, q);
    var a := [b[NextArg(b, q).value.0..NextArg(b, q).value.1]];
    var rest := ArgsFrom(b, NextArg(b, q).value.1 + 1);
    assert argv + (a + rest) == (argv + a) + rest;
  }

  /**
   * The loop of parseline: each round stores the argument the scan found,
   * cuts it off at its delimiter and scans on from just past the delimiter.
   */
  method SplitArgs(buf: string) returns (argv: seq<string>)
    ensures argv == ArgsFrom(buf, 0)
  {
    argv := [];
    var p, delim := ScanArg(buf, 0);
    ghost var q: nat := 0;
    while delim.Some?
      invariant q <= p <= |buf|
      invariant delim.Some? ==> NextArg(buf, q) == Some((p, delim.value))
      invariant delim.None? ==> NextArg(buf, q).None?
      invariant argv + ArgsFrom(buf, q) == ArgsFrom(buf, 0)
      decreases |buf| - p
    {
      var d := delim.value;
      ArgsStep(buf, q, argv);
      argv := argv + [buf[p..d]];
      q := d + 1;
      p, delim := ScanArg(buf, d + 1);
    }
    ArgsFromStep(buf, q);
  }

  /** parseline: copy the line with its newline turned into a space, split it, then look at the last argument. */
  method ParseLine(cmdline: string) returns (argv: seq<string>, bg: bool)
    requires |cmdline| >= 1 && IsCString(cmdline)
    ensures (argv, bg) == ParseResult(cmdline)
  {
    var buf := Buffer(cmdline);
    argv := SplitArgs(buf);
    if |argv| == 0 {
      return [], true;
    }
    bg := IsAmpersand(argv[|argv| - 1]);
    if bg {
      argv := argv[..|argv| - 1];
    }
  }

  // ---------------------------------------------------------------------------
  // What a line is made of

  /** An argument as typed: bare, or between single quotes. */
  datatype Arg = Bare(word: string) | Quoted(text: string)

  /** A bare word is non-empty, has no space and does not start with a quote; quoted text has no quote. */
  predicate Typable(a: Arg) {
    IsCString(Content(a)) &&
    match a
    case Bare(w) => |w| > 0 && w[0] != '\'' && forall k :: 0 <= k < |w| ==> w[k] != ' '
    case Quoted(t) => forall k :: 0 <= k < |t| ==> t[k] != '\''
  }

  predicate AllTypable(args: seq<Arg>) {
    |args| == 0 || (Typable(args[0]) && AllTypable(args[1..]))
  }

  /** The argument parseline should produce for it. */
  function Content(a: Arg): string {
    match a
    case Bare(w) => w
    case Quoted(t) => t
  }

  /** How the argument is typed. */
  function Spelling(a: Arg): string {
    match a
    case Bare(w) => w
    case Quoted(t) => "'" + t + "'"
  }

  function Contents(args: seq<Arg>): seq<string> {
    if |args| == 0 then [] else [Content(args[0])] + Contents(args[1..])
  }

  lemma {:induction false} ContentsAt(args: seq<Arg>)
    ensures |Contents(args)| == |args|
    ensures forall k :: 0 <= k < |args| ==> Contents(args)[k] == Content(args[k])
  {
    if |args| > 0 {
      ContentsAt(args[1..]);
    }
  }

  /** The arguments typed one after another, each followed by a single space. */
  function Typed(args: seq<Arg>): string {
    if |args| == 0 then "" else Spelling(args[0]) + " " + Typed(args[1..])
  }

  lemma {:induction false} TypedEndsInSpace(args: seq<Arg>)
    requires |args| > 0
    ensures |Typed(args)| > 0 && Typed(args)[|Typed(args)| - 1] == ' '
  {
    if |args| > 1 {
      TypedEndsInSpace(args[1..]);
    }
  }

  /** The text from position n of b on is s. */
  predicate SuffixAt(b: string, n: nat, s: string) {
    n + |s| == |b| && forall k :: 0 <= k < |s| ==> b[n + k] == s[k]
  }

  /** Skipping spaces does not depend on what comes before the scan position. */
  lemma {:induction false} SkipSpacesShift(b: string, n: nat, s: string, x: nat)
    requires SuffixAt(b, n, s) && x <= |s|
    ensures SkipSpaces(b, n + x) == n + SkipSpaces(s, x)
    decreases |s| - x
  {
    if x < |s| && s[x] == ' ' {
      SkipSpacesShift(b, n, s, x + 1);
    }
  }

  /** Neither does strchr. */
  lemma {:induction false} FindCharShift(b: string, n: nat, s: string, c: char, x: nat)
    requires SuffixAt(b, n, s) && x <= |s|
    ensures FindChar(b, c, n + x) ==
      match FindChar(s, c, x) case None => None case Some(v) => Some(n + v)
    decreases |s| - x
  {
    if x < |s| && s[x] != c {
      FindCharShift(b, n, s, c, x + 1);
    }
  }

  /** Nor does the scan for the next argument: it finds the same positions, moved by n. */
  lemma NextArgShift(b: string, n: nat, s: string, x: nat)
    requires SuffixAt(b, n, s) && x <= |s|
    ensures NextArg(b, n + x) ==
      match NextArg(s, x) case None => None case Some((st, d)) => Some((n + st, n + d))
  {
    SkipSpacesShift(b, n, s, x);
    var q := SkipSpaces(s, x);
    if q < |s| && s[q] == '\'' {
      FindCharShift(b, n, s, '\'', q + 1);
    } else {
      FindCharShift(b, n, s, ' ', q);
    }
  }

  /** Proof helper, not part of the model: two lists of arguments that start with the same argument and go on alike are equal. */
  lemma SameHead(x: seq<string>, y: seq<string>, xs: seq<string>, ys: seq<string>, a: string)
    requires x == [a] + xs && y == [a] + ys && xs == ys
    ensures x == y
  {
  }

  /** The arguments found in s from x on are those found in b from n + x on. */
  lemma {:induction false} ArgsFromShift(b: string, n: nat, s: string, x: nat)
    requires SuffixAt(b, n, s) && x <= |s|
    ensures ArgsFrom(b, n + x) == ArgsFrom(s, x)
    decreases |s| - x
  {
    NextArgShift(b, n, s, x);
    var r := NextArg(s, x);
    if r.None? {
      ArgsFromNone(b, n + x);
      ArgsFromNone(s, x);
    } else {
      var st, d := r.value.0, r.value.1;
      var e := d + 1;
      var arg := s[st..d];
      assert b[n + st..n + d] == arg by {
        forall k | 0 <= k < d - st
          ensures b[n + st..n + d][k] == arg[k]
        {
          assert b[n + st + k] == s[st + k];
        }
      }
      ArgsFromAt(b, n + x, n + st, n + d, n + e, arg);
      ArgsFromAt(s, x, st, d, e, arg);
      ArgsFromShift(b, n, s, e);
      SameHead(ArgsFrom(b, n + x), ArgsFrom(s, x), ArgsFrom(b, n + e), ArgsFrom(s, e), arg);
    }
  }

  /** A leading space holds no argument. */
  lemma LeadingSpace(s: string)
    ensures ArgsFrom(" " + s, 0) == ArgsFrom(s, 0)
  {
    var b := " " + s;
    assert SkipSpaces(b, 0) == SkipSpaces(b, 1);
    assert ArgsFrom(b, 0) == ArgsFrom(b, 1);
    assert SuffixAt(b, 1, s);
    ArgsFromShift(b, 1, s, 0);
  }

  /** A bare word followed by a space is the first argument; the scan resumes right after that space. */
  lemma TypedBare(w: string, rest: string)
    requires Typable(Bare(w))
    ensures ArgsFrom(w + " " + rest, 0) == [w] + ArgsFrom(rest, 0)
  {
    var b := w + " " + rest;
    assert b[0] == w[0];
    SkipSpacesFirst(b, 0, 0);
    forall k | 0 <= k < |w|
      ensures b[k] != ' '
    {
      assert b[k] == w[k];
    }
    assert b[|w|] == ' ';
    FindCharFirst(b, ' ', 0, |w|);
    assert b[0..|w|] == w;
    ArgsFromAt(b, 0, 0, |w|, |w| + 1, w);
    assert SuffixAt(b, |w| + 1, rest);
    ArgsFromShift(b, |w| + 1, rest, 0);
  }

  /**
   * Quoted text followed by a space is the first argument; the scan resumes at
   * the space after the closing quote and skips it.
   */
  lemma TypedQuoted(t: string, rest: string)
    requires Typable(Quoted(t))
    ensures ArgsFrom("'" + t + "'" + " " + rest, 0) == [t] + ArgsFrom(rest, 0)
  {
    var sp := "'" + t + "'";
    var b := sp + " " + rest;
    assert b[0] == '\'';
    SkipSpacesFirst(b, 0, 0);
    forall k | 1 <= k < 1 + |t|
      ensures b[k] != '\''
    {
      assert b[k] == t[k - 1];
    }
    assert b[1 + |t|] == '\'';
    FindCharFirst(b, '\'', 1, 1 + |t|);
    assert b[1..1 + |t|] == t;
    ArgsFromAt(b, 0, 1, 1 + |t|, |sp|, t);
    assert SuffixAt(b, |sp|, " " + rest);
    ArgsFromShift(b, |sp|, " " + rest, 0);
    LeadingSpace(rest);
  }

  /** Scanning text typed as `args` yields their contents. */
  lemma {:induction false} ArgsOfTyped(args: seq<Arg>)
    requires AllTypable(args)
    ensures ArgsFrom(Typed(args), 0) == Contents(args)
  {
    if |args| == 0 {
      assert NextArg("", 0).None?;
    } else {
      var a, rest := args[0], args[1..];
      match a {
        case Bare(w) => TypedBare(w, Typed(rest));
        case Quoted(t) => TypedQuoted(t, Typed(rest));
      }
      ArgsOfTyped(rest);
    }
  }

  /** The line whose buffer is `typed`: its last character, a space, given back as the newline. */
  lemma BufferOfTyped(typed: string)
    requires |typed| > 0 && typed[|typed| - 1] == ' '
    ensures Buffer(typed[..|typed| - 1] + "\n") == typed
  {
    var line := typed[..|typed| - 1] + "\n";
    assert line[..|line| - 1] == typed[..|typed| - 1];
    assert typed == typed[..|typed| - 1] + [typed[|typed| - 1]];
  }

  /** The contents of the first n arguments are the first n contents. */
  lemma ContentsPrefix(args: seq<Arg>, n: nat)
    requires n <= |args|
    ensures |Contents(args)| == |args|
    ensures Contents(args[..n]) == Contents(args)[..n]
  {
    ContentsAt(args);
    ContentsAt(args[..n]);
  }

  /**
   * Round trip: typing arguments separated by single spaces and ending the line
   * with a newline, parseline gives back their contents, except that a last
   * argument starting with '&' is removed and makes the job a background one.
   */
  lemma ParseTyped(args: seq<Arg>)
    requires |args| > 0
    requires AllTypable(args)
    ensures var typed := Typed(args);
      |typed| > 0 &&
      ParseResult(typed[..|typed| - 1] + "\n") ==
        if IsAmpersand(Content(args[|args| - 1])) then (Contents(args[..|args| - 1]), true)
        else (Contents(args), false)
  {
    var typed := Typed(args);
    TypedEndsInSpace(args);
    BufferOfTyped(typed);
    ArgsOfTyped(args);
    ContentsAt(args);
    ContentsPrefix(args, |args| - 1);
  }

  /** A line of nothing but spaces gives no arguments and returns 1. */
  lemma BlankLine(cmdline: string)
    requires |cmdline| >= 1
    requires forall k :: 0 <= k < |cmdline| - 1 ==> cmdline[k] == ' '
    ensures ParseResult(cmdline) == ([], true)
  {
    ArgsFromBlank(Buffer(cmdline), 0);
  }
}
