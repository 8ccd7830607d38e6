// Glob patterns: their tokens, the lines they describe, and the backtracking matcher.
module PatternMatchers {
  import opened Common

  // A token of a pattern. Set characters come in pairs that denote ranges; -1 is an unset limit.
  datatype Elem =
    | LiteralString(literal: string)
    | AnyChar
    | CommonChar
    | Set(setchars: string)
    | NegSet(setchars: string)
    | NumRange(fromnum: int, tonum: int)
    | AnySeq
    | CommonSeq
    | End

  // ---- characters and numbers ----

  predicate IsDigit(c: char) {
    '0' <= c <= '9'
  }

  predicate AllDigits(s: string) {
    forall i | 0 <= i < |s| :: IsDigit(s[i])
  }

  // The length of the digit run at the start of s.
  function Run(s: string): (n: nat)
    ensures n <= |s|
    ensures AllDigits(s[..n])
    ensures n < |s| ==> !IsDigit(s[n])
  {
    if s != "" && IsDigit(s[0]) then
      var n := 1 + Run(s[1..]);
      assert s[..n] == [s[0]] + s[1..][..n - 1];
      n
    else 0
  }

  // The number a digit string denotes.
  function Value(digits: string): nat
    requires AllDigits(digits)
  {
    if digits == "" then 0
    else
      var front, last := digits[..|digits| - 1], digits[|digits| - 1];
      10 * Value(front) + (last as int - '0' as int)
  }

  // atol on a string that starts with a digit.
  function Atol(s: string): nat {
    Value(s[..Run(s)])
  }

  predicate InRange(num: int, fromnum: int, tonum: int) {
    (fromnum >= 0 ==> fromnum <= num) && (tonum >= 0 ==> num <= tonum)
  }

  // c lies in one of the ranges.
  ghost predicate InSet(c: char, cs: string)
    requires |cs| % 2 == 0
  {
    exists i {:trigger cs[2 * i]} | 0 <= i < |cs| / 2 :: cs[2 * i] <= c <= cs[2 * i + 1]
  }

  method IsInSet(c: char, cs: string) returns (r: bool)
    requires |cs| % 2 == 0
    ensures r == InSet(c, cs)
  {
    var i := 0;
    while 2 * i < |cs|
      invariant 0 <= i <= |cs| / 2
      invariant forall j {:trigger cs[2 * j]} | 0 <= j < i :: !(cs[2 * j] <= c <= cs[2 * j + 1])
    {
      if c >= cs[2 * i] && c <= cs[2 * i + 1] {
        return true;
      }
      i := i + 1;
    }
    return false;
  }

  // ---- the lines a pattern describes ----

  // The rule of one token: may it stand for piece, when after is what follows on the line?
  ghost predicate Accepts(e: Elem, piece: string, after: string) {
    match e
    case LiteralString(lit) => piece == lit
    case AnyChar => |piece| == 1
    case CommonChar => |piece| == 1 && piece[0] != '.'
    case Set(cs) => |cs| % 2 == 0 && |piece| == 1 && InSet(piece[0], cs)
    case NegSet(cs) => |cs| % 2 == 0 && |piece| == 1 && !InSet(piece[0], cs)
    case NumRange(lo, up) =>
      && |piece| > 0 && AllDigits(piece)
      && (after != "" ==> !IsDigit(after[0]))
      && InRange(Value(piece), lo, up)
    case AnySeq => true
    case CommonSeq => '.' !in piece
    case End => false
  }

  function Concat(pieces: seq<string>): string {
    if pieces == [] then "" else pieces[0] + Concat(pieces[1..])
  }

  // One piece for each token, and each piece allowed by the rule of its token, when the line goes on with after.
  ghost predicate Fits(es: seq<Elem>, pieces: seq<string>, after: string) {
    && |pieces| == |es|
    && forall i {:trigger es[i]} | 0 <= i < |es| :: Accepts(es[i], pieces[i], Concat(pieces[i + 1..]) + after)
  }

  // The line splits into one piece for each token.
  ghost predicate Describes(es: seq<Elem>, line: string) {
    exists pieces :: Fits(es, pieces, "") && Concat(pieces) == line
  }

  // The same, token by token, with the line going on after the last one.
  ghost predicate Reaches(es: seq<Elem>, line: string, after: string)
    decreases |es|
  {
    if es == [] then line == after
    else exists n {:trigger line[..n]} | 0 <= n <= |line| ::
      Accepts(es[0], line[..n], line[n..]) && Reaches(es[1..], line[n..], after)
  }

  lemma {:induction false} FitsReaches(es: seq<Elem>, pieces: seq<string>, after: string)
    requires Fits(es, pieces, after)
    ensures Reaches(es, Concat(pieces) + after, after)
    decreases |es|
  {
    if es != [] {
      var line := Concat(pieces) + after;
      var n := |pieces[0]|;
      assert line[..n] == pieces[0];
      assert line[n..] == Concat(pieces[1..]) + after;
      assert Fits(es[1..], pieces[1..], after) by {
        forall i | 0 <= i < |es[1..]|
          ensures Accepts(es[1..][i], pieces[1..][i], Concat(pieces[1..][i + 1..]) + after)
        {
          assert pieces[1..][i + 1..] == pieces[i + 2..];
          assert Accepts(es[i + 1], pieces[i + 1], Concat(pieces[i + 2..]) + after);
        }
      }
      FitsReaches(es[1..], pieces[1..], after);
    }
  }

  lemma {:induction false} ReachesFits(es: seq<Elem>, line: string, after: string) returns (pieces: seq<string>)
    requires Reaches(es, line, after)
    ensures Fits(es, pieces, after) && Concat(pieces) + after == line
    decreases |es|
  {
    if es == [] {
      pieces := [];
      assert Concat(pieces) + after == after;
    } else {
      var n := FirstPiece(es, line, after);
      var piece, tail := line[..n], line[n..];
      assert line == piece + tail;
      var rest := ReachesFits(es[1..], tail, after);
      FitsCons(es, piece, rest, after);
      pieces := [piece] + rest;
    }
  }

  lemma FirstPiece(es: seq<Elem>, line: string, after: string) returns (n: nat)
    requires es != [] && Reaches(es, line, after)
    ensures n <= |line| && Accepts(es[0], line[..n], line[n..]) && Reaches(es[1..], line[n..], after)
  {
    n :| 0 <= n <= |line| && Accepts(es[0], line[..n], line[n..]) && Reaches(es[1..], line[n..], after);
  }

  lemma FitsCons(es: seq<Elem>, piece: string, rest: seq<string>, after: string)
    requires es != [] && Fits(es[1..], rest, after) && Accepts(es[0], piece, Concat(rest) + after)
    ensures Fits(es, [piece] + rest, after)
    ensures Concat([piece] + rest) + after == piece + (Concat(rest) + after)
  {
    var pieces := [piece] + rest;
    forall i | 0 <= i < |es| ensures Accepts(es[i], pieces[i], Concat(pieces[i + 1..]) + after) {
      assert pieces[i + 1..] == rest[i..];
      if i > 0 {
        assert es[i] == es[1..][i - 1];
      }
    }
  }

  lemma DescribesIsReaches(es: seq<Elem>, line: string)
    ensures Describes(es, line) <==> Reaches(es, line, "")
  {
    if Describes(es, line) {
      var pieces :| Fits(es, pieces, "") && Concat(pieces) == line;
      FitsReaches(es, pieces, "");
      assert Concat(pieces) + "" == line;
    }
    if Reaches(es, line, "") {
      var pieces := ReachesFits(es, line, "");
      assert Concat(pieces) + "" == Concat(pieces);
    }
  }

  // ---- what each rule means for the front of the line ----

  lemma FixedLength(es: seq<Elem>, line: string, after: string, n: nat)
    requires es != [] && n <= |line|
    requires forall k | 0 <= k <= |line| && Accepts(es[0], line[..k], line[k..]) :: k == n
    ensures Reaches(es, line, after) <==> Accepts(es[0], line[..n], line[n..]) && Reaches(es[1..], line[n..], after)
  {
  }

  // No prefix of the line fits the first token.
  lemma NoPrefix(es: seq<Elem>, line: string, after: string)
    requires es != [] && forall k | 0 <= k <= |line| :: !Accepts(es[0], line[..k], line[k..])
    ensures !Reaches(es, line, after)
  {
  }

  // A number takes the whole run of digits, neither more nor less.
  lemma NumberTakesTheRun(lo: int, up: int, line: string, k: nat)
    requires k <= |line|
    ensures Accepts(NumRange(lo, up), line[..k], line[k..]) <==> k == Run(line) && k > 0 && InRange(Atol(line), lo, up)
  {
    var run, piece := line[..Run(line)], line[..k];
    assert forall i | 0 <= i < |run| :: run[i] == line[i];
    assert forall i | 0 <= i < k :: piece[i] == line[i];
  }

  // Any sequence: stop here, or take one more character.
  lemma SequenceStops(es: seq<Elem>, line: string, after: string)
    requires es != [] && (es[0].AnySeq? || es[0].CommonSeq?)
    ensures Reaches(es, line, after) <==>
      Reaches(es[1..], line, after)
        || (line != "" && (es[0].CommonSeq? ==> line[0] != '.') && Reaches(es, line[1..], after))
  {
    assert line[0..] == line && Accepts(es[0], line[..0], line);
    if line != "" {
      if Reaches(es, line[1..], after) && (es[0].CommonSeq? ==> line[0] != '.') {
        SequenceGrows(es, line, after);
      }
      if Reaches(es, line, after) && !Reaches(es[1..], line, after) {
        SequenceShrinks(es, line, after);
      }
    }
  }

  lemma SequenceGrows(es: seq<Elem>, line: string, after: string)
    requires es != [] && line != "" && (es[0].AnySeq? || (es[0].CommonSeq? && line[0] != '.'))
    requires Reaches(es, line[1..], after)
    ensures Reaches(es, line, after)
  {
    var tail := line[1..];
    var n := FirstPiece(es, tail, after);
    assert line[..n + 1] == [line[0]] + tail[..n] && line[n + 1..] == tail[n..];
  }

  lemma SequenceShrinks(es: seq<Elem>, line: string, after: string)
    requires es != [] && (es[0].AnySeq? || es[0].CommonSeq?)
    requires line != "" && Reaches(es, line, after) && !Reaches(es[1..], line, after)
    ensures Reaches(es, line[1..], after) && (es[0].CommonSeq? ==> line[0] != '.')
  {
    var tail := line[1..];
    var n := FirstPiece(es, line, after);
    assert line[0..] == line && n > 0;
    assert line[..n] == [line[0]] + tail[..n - 1] && line[n..] == tail[n - 1..];
    assert Accepts(es[0], tail[..n - 1], tail[n - 1..]);
  }

  // "**" at the end takes anything.
  lemma LastAnySeq(line: string, after: string)
    requires |after| <= |line| && line[|line| - |after|..] == after
    ensures Reaches([AnySeq], line, after)
  {
    var n := |line| - |after|;
    assert Accepts(AnySeq, line[..n], line[n..]);
    assert [AnySeq][1..] == [];
  }

  predicate EndsWith(s: string, ending: string) {
    |s| >= |ending| && s[|s| - |ending|..] == ending
  }

  lemma OneLiteral(lit: string, line: string)
    ensures Reaches([LiteralString(lit)], line, "") <==> line == lit
  {
    var es := [LiteralString(lit)];
    assert es[1..] == [] && line[..|line|] == line;
    if line == lit {
      assert Accepts(es[0], line[..|lit|], line[|lit|..]) && Reaches(es[1..], line[|lit|..], "");
    }
  }

  // "**" and a literal at the end take what ends in the literal.
  lemma LastAnySeqLiteral(lit: string, line: string)
    ensures Reaches([AnySeq, LiteralString(lit)], line, "") <==> EndsWith(line, lit)
  {
    var es := [AnySeq, LiteralString(lit)];
    assert es[1..] == [LiteralString(lit)];
    forall n | 0 <= n <= |line| ensures Reaches(es[1..], line[n..], "") <==> line[n..] == lit {
      OneLiteral(lit, line[n..]);
    }
    if EndsWith(line, lit) {
      var n := |line| - |lit|;
      assert Accepts(AnySeq, line[..n], line[n..]) && Reaches(es[1..], line[n..], "");
    }
  }

  // A line of a pattern that ends in a literal ends in that literal.
  lemma {:induction false} EndsInLastLiteral(es: seq<Elem>, line: string)
    requires es != [] && es[|es| - 1].LiteralString? && Reaches(es, line, "")
    ensures EndsWith(line, es[|es| - 1].literal)
    decreases |es|
  {
    var n :| 0 <= n <= |line| && Accepts(es[0], line[..n], line[n..]) && Reaches(es[1..], line[n..], "");
    if |es| > 1 {
      EndsInLastLiteral(es[1..], line[n..]);
    } else {
      assert line[..n] == line;
    }
  }

  // The check before the match proper never rejects a line of the pattern.
  lemma EndsInLastTwo(es: seq<Elem>, line: string, lit: string)
    requires es != [] && es[|es| - 1] == LiteralString(lit)
    ensures |lit| >= 2 && Reaches(es, line, "") ==>
      |line| >= 2 && line[|line| - 1] == lit[|lit| - 1] && line[|line| - 2] == lit[|lit| - 2]
  {
    if |lit| >= 2 && Reaches(es, line, "") {
      EndsInLastLiteral(es, line);
      var ending := line[|line| - |lit|..];
      assert line[|line| - 1] == ending[|lit| - 1] && line[|line| - 2] == ending[|lit| - 2];
    }
  }

  function At(s: string, i: nat): char {
    if i < |s| then s[i] else '\0'
  }

  predicate SetsArePairs(es: seq<Elem>) {
    forall e | e in es && (e.Set? || e.NegSet?) :: |e.setchars| % 2 == 0
  }

  // ---- reading a pattern ----

  // A number range that starts at the bracket s[0]: its limits, and the text from the closing bracket on.
  function NumRangeAt(s: string, closing: char): (r: Option<(int, int, string)>)
    requires s != ""
    ensures r.Some? ==>
      |r.value.2| < |s| && r.value.2 != "" && r.value.2[0] == closing && r.value.0 >= -1 && r.value.1 >= -1
  {
    var s1 := s[1..];
    var lo := if Run(s1) > 0 then Atol(s1) else -1;
    var s2 := s1[Run(s1)..];
    if At(s2, 0) != '.' || At(s2, 1) != '.' then None
    else
      var s3 := s2[2..];
      var up := if Run(s3) > 0 then Atol(s3) else -1;
      var s4 := s3[Run(s3)..];
      if s4 == "" || s4[0] != closing then None else Some((lo, up, s4))
  }

  // The literal at the start of s and what follows it. None where a lone backslash ends the pattern.
  function LiteralAt(s: string): (r: Option<(string, string)>)
    ensures r.Some? ==> |r.value.1| <= |s|
    ensures r.Some? && s != "" && s[0] != '?' && s[0] != '{' && s[0] != '*' ==>
      r.value.0 != "" && (|r.value.1| < |s| || (r.value.1 == s && s[0] == '[' && NumRangeAt(s, ']').Some?))
  {
    if s == "" || s[0] == '?' || s[0] == '{' || s[0] == '*' then Some(("", s))
    else if s == "\\" then None
    else
      var t := if s[0] == '\\' then s[1..] else s;
      if t[0] == '[' && NumRangeAt(t, ']').Some? then Some(([t[0]], t))
      else
        match LiteralAt(t[1..])
        case None => None
        case Some((lit, rest)) => Some(([t[0]] + lit, rest))
  }

  // The ranges of a set up to its closing brace. first says that s is just after the opening one.
  function RangesAt(s: string, first: bool): (r: Option<(string, string)>)
    ensures r.Some? ==> |r.value.1| < |s| && |r.value.0| % 2 == 0
  {
    if s == "" then None
    else if s[0] == '}' && !first then Some(("", s[1..]))
    else
      var wide := At(s, 1) == '-' && |s| > 2 && s[2] != '}';
      match RangesAt(if wide then s[3..] else s[1..], false)
      case None => None
      case Some((rest, tail)) => Some(([s[0], if wide then s[2] else s[0]] + rest, tail))
  }

  // The set whose opening brace is s[0].
  function SetAt(s: string): (r: Option<(Elem, string)>)
    requires s != ""
    ensures r.Some? ==> |r.value.1| < |s| && (r.value.0.Set? || r.value.0.NegSet?) && |r.value.0.setchars| % 2 == 0
  {
    var neg := At(s, 1) == '^';
    match RangesAt(if neg then s[2..] else s[1..], true)
    case None => None
    case Some((cs, rest)) => Some((if neg then NegSet(cs) else Set(cs), rest))
  }

  // The token at the start of s, and what follows it.
  function TokenAt(s: string, dottedpath: bool, afterLiteral: bool): (r: Option<(Elem, string)>)
    requires s != ""
    ensures r.Some? ==> r.value.0 != End && SetsArePairs([r.value.0])
    ensures r.Some? ==> |r.value.1| < |s| || (r.value.1 == s && r.value.0.LiteralString? && !afterLiteral)
  {
    match s[0]
    case '?' => Some((if dottedpath then CommonChar else AnyChar, s[1..]))
    case '*' =>
      if At(s, 1) == '*' then Some((AnySeq, s[2..]))
      else Some((if dottedpath then CommonSeq else AnySeq, s[1..]))
    case '{' =>
      (match NumRangeAt(s, '}')
       case Some((lo, up, rest)) => Some((NumRange(lo, up), rest[1..]))
       case None => SetAt(s))
    case _ =>
      if s[0] == '[' && afterLiteral && NumRangeAt(s, ']').Some? then
        var (lo, up, rest) := NumRangeAt(s, ']').value;
        Some((NumRange(lo, up), rest))
      else
        match LiteralAt(s)
        case None => None
        case Some((lit, rest)) => Some((LiteralString(lit), rest))
  }

  // All tokens of s.
  function Tokens(s: string, dottedpath: bool, afterLiteral: bool): (r: Option<seq<Elem>>)
    ensures r.Some? ==> End !in r.value && SetsArePairs(r.value)
    decreases |s|, !afterLiteral
  {
    if s == "" then Some([])
    else
      match TokenAt(s, dottedpath, afterLiteral)
      case None => None
      case Some((e, rest)) =>
        match Tokens(rest, dottedpath, e.LiteralString?)
        case None => None
        case Some(es) =>
          assert e in [e];
          Some([e] + es)
  }

  // "**" at both ends, unless it is there already.
  function Unanchored(es: seq<Elem>): (r: seq<Elem>)
    ensures End !in es ==> End !in r
    ensures SetsArePairs(es) ==> SetsArePairs(r)
  {
    var right := if es == [] || es[|es| - 1] != AnySeq then es + [AnySeq] else es;
    if right[0] != AnySeq then [AnySeq] + right else right
  }

  predicate AfterLiteral(es: seq<Elem>) {
    es != [] && es[|es| - 1].LiteralString?
  }

  // What was read before goes in front.
  function Prefixed(text: string, r: Option<(string, string)>): (p: Option<(string, string)>)
    ensures text == "" ==> p == r
    ensures r.Some? && r.value.0 == "" ==> p == Some((text, r.value.1))
  {
    assert text + "" == text && (r.Some? ==> "" + r.value.0 == r.value.0);
    if r.None? then None else Some((text + r.value.0, r.value.1))
  }

  lemma PrefixedTwice(text: string, more: string, r: Option<(string, string)>)
    ensures Prefixed(text, Prefixed(more, r)) == Prefixed(text + more, r)
  {
    if r.Some? {
      assert text + (more + r.value.0) == text + more + r.value.0;
    }
  }

  function PrefixedTokens(es: seq<Elem>, r: Option<seq<Elem>>): (p: Option<seq<Elem>>)
    ensures es == [] ==> p == r
    ensures r == Some([]) ==> p == Some(es)
  {
    assert es + [] == es && (r.Some? ==> [] + r.value == r.value);
    if r.None? then None else Some(es + r.value)
  }

  lemma PrefixedTokensTwice(es: seq<Elem>, more: seq<Elem>, r: Option<seq<Elem>>)
    ensures PrefixedTokens(es, PrefixedTokens(more, r)) == PrefixedTokens(es + more, r)
  {
    if r.Some? {
      assert es + (more + r.value) == es + more + r.value;
    }
  }

  class PatternMatcher {
    var pattern: seq<Elem>

    // The tokens, then the end marker.
    ghost predicate Valid()
      reads this
    {
      |pattern| > 0 && pattern[|pattern| - 1] == End && End !in pattern[..|pattern| - 1] && SetsArePairs(pattern)
    }

    // The tokens from position k on.
    ghost function From(k: nat): (es: seq<Elem>)
      reads this
      requires Valid() && k < |pattern|
    {
      pattern[k..|pattern| - 1]
    }

    // The tokens that take a piece of known length: is there such a piece at the front of s?
    method MatchOne(e: Elem, s: string, ghost rest: seq<Elem>) returns (ok: bool, tail: string)
      requires !e.AnySeq? && !e.CommonSeq? && e != End && SetsArePairs([e])
      ensures ok ==> (Reaches([e] + rest, s, "") <==> Reaches(rest, tail, ""))
      ensures !ok ==> !Reaches([e] + rest, s, "")
    {
      ghost var es := [e] + rest;
      assert es[0] == e && es[1..] == rest;
      match e {
        case LiteralString(lit) =>
          ok := |lit| <= |s| && s[..|lit|] == lit;
          tail := if ok then s[|lit|..] else s;
          if ok {
            FixedLength(es, s, "", |lit|);
          }
        case AnyChar =>
          ok := s != "";
          tail := if ok then s[1..] else s;
          if ok {
            FixedLength(es, s, "", 1);
          }
        case CommonChar =>
          ok := s != "" && s[0] != '.';
          tail := if ok then s[1..] else s;
          if ok {
            FixedLength(es, s, "", 1);
          }
        case Set(cs) =>
          assert e in [e];
          ok := s != "";
          if ok {
            ok := IsInSet(s[0], cs);
            FixedLength(es, s, "", 1);
          }
          tail := if ok then s[1..] else s;
        case NegSet(cs) =>
          assert e in [e];
          ok := s != "";
          if ok {
            ok := IsInSet(s[0], cs);
            ok := !ok;
            FixedLength(es, s, "", 1);
          }
          tail := if ok then s[1..] else s;
        case NumRange(lo, up) =>
          ok, tail := MatchNumber(lo, up, s);
          forall k | 0 <= k <= |s|
            ensures Accepts(e, s[..k], s[k..]) <==> k == Run(s) && k > 0 && InRange(Atol(s), lo, up)
          {
            NumberTakesTheRun(lo, up, s, k);
          }
          if ok {
            FixedLength(es, s, "", Run(s));
          }
      }
      if !ok {
        NoPrefix(es, s, "");
      }
    }

    method MatchNumber(fromnum: int, tonum: int, s: string) returns (ok: bool, tail: string)
      ensures ok <==> Run(s) > 0 && InRange(Atol(s), fromnum, tonum)
      ensures ok ==> tail == s[Run(s)..]
    {
      tail := s;
      if s == "" || !IsDigit(s[0]) {
        return false, s;
      }
      var num := Atol(s);
      while tail != "" && IsDigit(tail[0])
        invariant |tail| <= |s| && tail == s[|s| - |tail|..] && Run(s) == |s| - |tail| + Run(tail)
        decreases |tail|
      {
        tail := tail[1..];
      }
      ok := !((fromnum >= 0 && num < fromnum) || (tonum >= 0 && num > tonum));
    }

    lemma AnySeqIsLast(k: nat, s: string)
      requires Valid() && k == |pattern| - 2 && pattern[k].AnySeq?
      ensures Reaches(From(k), s, "")
    {
      assert From(k) == [AnySeq];
      LastAnySeq(s, "");
    }

    lemma OnlyLiteralIsLeft(k: nat, s: string)
      requires Valid() && k == |pattern| - 3 && pattern[k].AnySeq? && pattern[k + 1].LiteralString?
      ensures Reaches(From(k), s, "") <==> EndsWith(s, pattern[k + 1].literal)
    {
      assert From(k) == [AnySeq, pattern[k + 1]];
      LastAnySeqLiteral(pattern[k + 1].literal, s);
    }

    // One step of the matching loop on a token whose piece has a known length.
    method Advance(line: string, k: nat) returns (ok: bool, s: string)
      requires Valid() && k < |pattern| - 1 && !pattern[k].AnySeq? && !pattern[k].CommonSeq?
      ensures ok ==> (Reaches(From(k), line, "") <==> Reaches(From(k + 1), s, ""))
      ensures !ok ==> !Reaches(From(k), line, "")
    {
      assert pattern[k] in pattern && [pattern[k]] + From(k + 1) == From(k);
      assert pattern[k] in pattern[..|pattern| - 1];
      ok, s := MatchOne(pattern[k], line, From(k + 1));
    }

    method DoMatch(line: string, patternpos: nat) returns (r: bool)
      requires Valid() && patternpos < |pattern|
      ensures r <==> Reaches(From(patternpos), line, "")
      decreases |pattern| - patternpos
    {
      var s, k := line, patternpos;
      while pattern[k] != End
        invariant k < |pattern| && patternpos <= k
        invariant Reaches(From(patternpos), line, "") <==> Reaches(From(k), s, "")
        decreases |pattern| - k
      {
        if pattern[k].AnySeq? {
          if k == |pattern| - 2 {
            AnySeqIsLast(k, s);
            return true;
          }
          if k == |pattern| - 3 && pattern[k + 1].LiteralString? {
            OnlyLiteralIsLeft(k, s);
            return EndsWith(s, pattern[k + 1].literal);
          }
        }
        if pattern[k].AnySeq? || pattern[k].CommonSeq? {
          r := MatchSequence(s, k);
          return;
        }
        var ok;
        ok, s := Advance(s, k);
        if !ok {
          return false;
        }
        k := k + 1;
      }
      AtEnd(k, s);
      return s == "";
    }

    lemma AtEnd(k: nat, s: string)
      requires Valid() && k < |pattern| && pattern[k] == End
      ensures Reaches(From(k), s, "") <==> s == ""
    {
      assert forall i | 0 <= i < |pattern| - 1 :: pattern[i] == pattern[..|pattern| - 1][i];
      assert From(k) == [];
    }

    // Try the rest of the pattern at each place the sequence at position k may stop.
    method MatchSequence(line: string, k: nat) returns (r: bool)
      requires Valid() && k < |pattern| - 1 && (pattern[k].AnySeq? || pattern[k].CommonSeq?)
      ensures r <==> Reaches(From(k), line, "")
      decreases |pattern| - k, 0
    {
      var s := line;
      while true
        invariant Reaches(From(k), line, "") <==> Reaches(From(k), s, "")
        decreases |s|
      {
        SequenceStops(From(k), s, "");
        r := DoMatch(s, k + 1);
        if r {
          return true;
        }
        if s == "" || (pattern[k].CommonSeq? && s[0] == '.') {
          return false;
        }
        s := s[1..];
      }
    }

    // The check of the last two characters.
    method FailsQuickly(line: string) returns (r: bool)
      requires Valid()
      ensures r ==> !Reaches(From(0), line, "")
    {
      r := false;
      if |pattern| >= 2 && pattern[|pattern| - 2].LiteralString? {
        var lit := pattern[|pattern| - 2].literal;
        var pattlen, linelen := |lit|, |line|;
        r := pattlen >= 2 && linelen >= 2
          && (line[linelen - 1] != lit[pattlen - 1] || line[linelen - 2] != lit[pattlen - 2]);
        EndsInLastTwo(From(0), line, lit);
      }
    }

    method Matches(line: string) returns (r: bool)
      requires Valid()
      ensures r <==> Describes(pattern[..|pattern| - 1], line)
    {
      assert From(0) == pattern[..|pattern| - 1];
      DescribesIsReaches(From(0), line);
      r := FailsQuickly(line);
      if r {
        return false;
      }
      r := DoMatch(line, 0);
    }

    // ---- setting the pattern ----

    method ParseNumRange(str: string, closingchar: char) returns (ok: bool, lo: int, up: int, s: string)
      requires str != ""
      ensures ok <==> NumRangeAt(str, closingchar).Some?
      ensures ok ==> NumRangeAt(str, closingchar) == Some((lo, up, s))
      ensures !ok ==> s == str
    {
      lo, up, s := -1, -1, str[1..];
      if s != "" && IsDigit(s[0]) {
        lo := Atol(s);
        s := SkipDigits(s);
      }
      if At(s, 0) != '.' || At(s, 1) != '.' {
        return false, lo, up, str;
      }
      s := s[2..];
      if s != "" && IsDigit(s[0]) {
        up := Atol(s);
        s := SkipDigits(s);
      }
      if s == "" || s[0] != closingchar {
        return false, lo, up, str;
      }
      ok := true;
    }

    method SkipDigits(str: string) returns (s: string)
      ensures s == str[Run(str)..]
    {
      s := str;
      while s != "" && IsDigit(s[0])
        invariant |s| <= |str| && s == str[|str| - |s|..] && Run(str) == |str| - |s| + Run(s)
        decreases |s|
      {
        s := s[1..];
      }
    }

    method ParseLiteralString(str: string) returns (ok: bool, literal: string, s: string)
      ensures ok <==> LiteralAt(str).Some?
      ensures ok ==> LiteralAt(str) == Some((literal, s))
    {
      ok, literal, s := true, "", str;
      while s != "" && s[0] != '?' && s[0] != '{' && s[0] != '*'
        invariant LiteralAt(str) == Prefixed(literal, LiteralAt(s))
        decreases |s|
      {
        if s[0] == '\\' {
          s := s[1..];
          if s == "" {
            return false, literal, s;
          }
        }
        PrefixedTwice(literal, [s[0]], LiteralAt(s[1..]));
        literal := literal + [s[0]];
        if s[0] == '[' {
          var range, lo, up, s1 := ParseNumRange(s, ']');
          if range {
            return;
          }
        }
        s := s[1..];
      }
    }

    method ParseSet(str: string) returns (ok: bool, e: Elem, s: string)
      requires str != ""
      ensures ok <==> SetAt(str).Some?
      ensures ok ==> SetAt(str) == Some((e, s))
    {
      s := str[1..];
      var neg := s != "" && s[0] == '^';
      if neg {
        s := s[1..];
      }
      ghost var sbeg := s;
      var chars, first := "", true;
      while s != "" && (s[0] != '}' || first)
        invariant RangesAt(sbeg, true) == Prefixed(chars, RangesAt(s, first))
        decreases |s|
      {
        if At(s, 1) == '-' && |s| > 2 && s[2] != '}' {
          PrefixedTwice(chars, [s[0], s[2]], RangesAt(s[3..], false));
          chars := chars + [s[0], s[2]];
          s := s[3..];
        } else {
          PrefixedTwice(chars, [s[0], s[0]], RangesAt(s[1..], false));
          chars := chars + [s[0], s[0]];
          s := s[1..];
        }
        first := false;
      }
      e := if neg then NegSet(chars) else Set(chars);
      ok := s != "";
      if ok {
        s := s[1..];
      }
    }

    // One round of the tokenizing loop.
    method ParseToken(str: string, dottedpath: bool, afterLiteral: bool) returns (ok: bool, e: Elem, s: string)
      requires str != ""
      ensures ok <==> TokenAt(str, dottedpath, afterLiteral).Some?
      ensures ok ==> TokenAt(str, dottedpath, afterLiteral) == Some((e, s))
    {
      ok, e, s := true, End, str;
      match str[0]
      case '?' =>
        e, s := if dottedpath then CommonChar else AnyChar, s[1..];
      case '*' =>
        if At(s, 1) == '*' {
          e, s := AnySeq, s[2..];
        } else {
          e, s := if dottedpath then CommonSeq else AnySeq, s[1..];
        }
      case '{' =>
        var lo, up;
        ok, lo, up, s := ParseNumRange(s, '}');
        if ok {
          e, s := NumRange(lo, up), s[1..];
        } else {
          ok, e, s := ParseSet(s);
        }
      case _ =>
        var range, lo, up := false, -1, -1;
        if s[0] == '[' && afterLiteral {
          range, lo, up, s := ParseNumRange(s, ']');
        }
        if range {
          e := NumRange(lo, up);
        } else {
          var lit;
          ok, lit, s := ParseLiteralString(s);
          e := LiteralString(lit);
        }
    }

    // setPattern; ok is false where the source throws or reads past the end of the pattern.
    method SetPattern(patt: string, dottedpath: bool, fullstring: bool) returns (ok: bool)
      modifies this
      ensures ok <==> Tokens(patt, dottedpath, false).Some?
      ensures ok ==>
        Valid() && pattern
          == (if fullstring then Tokens(patt, dottedpath, false).value
            else Unanchored(Tokens(patt, dottedpath, false).value)) + [End]
    {
      pattern := [];
      var s := patt;
      while s != ""
        invariant Tokens(patt, dottedpath, false)
          == PrefixedTokens(pattern, Tokens(s, dottedpath, AfterLiteral(pattern)))
        decreases |s|, !AfterLiteral(pattern)
      {
        var e;
        ok, e, s := ParseToken(s, dottedpath, AfterLiteral(pattern));
        if !ok {
          return;
        }
        PrefixedTokensTwice(pattern, [e], Tokens(s, dottedpath, e.LiteralString?));
        pattern := pattern + [e];
      }
      assert Tokens(patt, dottedpath, false) == Some(pattern);
      if !fullstring {
        pattern := Unanchored(pattern);
      }
      pattern := pattern + [End];
      ok := true;
    }

  }

  // ---- patterns without wildcards ----

  // Whether a string comparison would not do; strstr(pattern, "..") is the last clause.
  predicate ContainsWildcards(p: string) {
    || '?' in p || '*' in p || '\\' in p || '{' in p
    || exists i {:trigger p[i]} | 0 <= i < |p| - 1 :: p[i] == '.' && p[i + 1] == '.'
  }

  lemma TailWithoutWildcards(p: string, n: nat)
    requires !ContainsWildcards(p) && n <= |p|
    ensures !ContainsWildcards(p[n..])
  {
    var t := p[n..];
    assert forall i | 0 <= i < |t| :: t[i] == p[n + i];
  }

  lemma {:induction false} LiteralWithoutWildcards(p: string)
    requires !ContainsWildcards(p)
    ensures LiteralAt(p) == Some((p, ""))
  {
    if p != "" {
      TailWithoutWildcards(p, 1);
      LiteralWithoutWildcards(p[1..]);
      var n := Run(p[1..]);
      TailWithoutWildcards(p, n + 1);
      assert p[1..][n..] == p[n + 1..];
      assert NumRangeAt(p, ']').None?;
      assert p == [p[0]] + p[1..];
    }
  }

  // A full-string pattern without wildcards describes one line, itself.
  lemma WithoutWildcardsIsEquality(p: string, dottedpath: bool, line: string)
    requires !ContainsWildcards(p)
    ensures Tokens(p, dottedpath, false).Some?
    ensures Describes(Tokens(p, dottedpath, false).value, line) <==> line == p
  {
    if p == "" {
      DescribesIsReaches([], line);
    } else {
      LiteralWithoutWildcards(p);
      assert TokenAt(p, dottedpath, false) == Some((LiteralString(p), ""));
      assert Tokens("", dottedpath, true) == Some([]);
      assert [LiteralString(p)] + [] == [LiteralString(p)];
      DescribesIsReaches([LiteralString(p)], line);
      OneLiteral(p, line);
    }
  }

  // ---- substring mode ----

  predicate IsSuffix(after: string, line: string) {
    |after| <= |line| && line[|line| - |after|..] == after
  }

  lemma SuffixOfSuffix(a: string, b: string, c: string)
    requires IsSuffix(a, b) && IsSuffix(b, c)
    ensures IsSuffix(a, c)
  {
    assert c == c[..|c| - |b|] + b;
  }

  lemma {:induction false} ReachesSuffix(es: seq<Elem>, line: string, after: string)
    requires Reaches(es, line, after)
    ensures IsSuffix(after, line)
    decreases |es|
  {
    if es != [] {
      var n :| 0 <= n <= |line| && Reaches(es[1..], line[n..], after);
      ReachesSuffix(es[1..], line[n..], after);
      SuffixOfSuffix(after, line[n..], line);
    }
  }

  // A final "**" takes whatever the line still holds.
  lemma {:induction false} FinalAnySeqTakes(es: seq<Elem>, line: string, mid: string, after: string)
    requires Reaches(es, line, mid) && IsSuffix(after, mid)
    ensures Reaches(es + [AnySeq], line, after)
    decreases |es|
  {
    var all := es + [AnySeq];
    if es == [] {
      assert all == [AnySeq];
      LastAnySeq(line, after);
    } else {
      var n :| 0 <= n <= |line| && Accepts(es[0], line[..n], line[n..]) && Reaches(es[1..], line[n..], mid);
      FinalAnySeqTakes(es[1..], line[n..], mid, after);
      assert all[1..] == es[1..] + [AnySeq];
    }
  }

  lemma {:induction false} FinalAnySeqTook(es: seq<Elem>, line: string, after: string) returns (mid: string)
    requires Reaches(es + [AnySeq], line, after)
    ensures Reaches(es, line, mid) && IsSuffix(after, mid)
    decreases |es|
  {
    var all := es + [AnySeq];
    if es == [] {
      ReachesSuffix(all, line, after);
      mid := line;
    } else {
      var n :| 0 <= n <= |line| && Accepts(all[0], line[..n], line[n..]) && Reaches(all[1..], line[n..], after);
      assert all[1..] == es[1..] + [AnySeq];
      mid := FinalAnySeqTook(es[1..], line[n..], after);
    }
  }

  lemma FirstAnySeq(es: seq<Elem>, line: string, after: string)
    ensures Reaches([AnySeq] + es, line, after) <==>
      exists n {:trigger line[n..]} | 0 <= n <= |line| :: Reaches(es, line[n..], after)
  {
    assert ([AnySeq] + es)[1..] == es;
    if n :| 0 <= n <= |line| && Reaches(es, line[n..], after) {
      assert Accepts(AnySeq, line[..n], line[n..]);
    }
  }

  // Somewhere on the line the tokens fit.
  ghost predicate Occurs(es: seq<Elem>, line: string) {
    exists before, pieces, after :: line == before + Concat(pieces) + after && Fits(es, pieces, after)
  }

  // In substring mode a line matches exactly when the pattern fits somewhere on it.
  lemma SubstringModeFindsOccurrences(es: seq<Elem>, line: string)
    ensures Describes(Unanchored(es), line) <==> Occurs(es, line)
  {
    DescribesIsReaches(Unanchored(es), line);
    if Occurs(es, line) {
      var before, pieces, after :| line == before + Concat(pieces) + after && Fits(es, pieces, after);
      FittingReaches(es, line, before, pieces, after);
    }
    if Reaches(Unanchored(es), line, "") {
      var n, after := ReachesOccurrence(es, line);
      ReachesOccurs(es, line, n, after);
    }
  }

  lemma FittingReaches(es: seq<Elem>, line: string, before: string, pieces: seq<string>, after: string)
    requires line == before + Concat(pieces) + after && Fits(es, pieces, after)
    ensures Reaches(Unanchored(es), line, "")
  {
    FitsReaches(es, pieces, after);
    assert line[|before|..] == Concat(pieces) + after;
    OccurrenceReaches(es, line, |before|, after);
  }

  lemma ReachesOccurs(es: seq<Elem>, line: string, n: nat, after: string)
    requires n <= |line| && Reaches(es, line[n..], after)
    ensures Occurs(es, line)
  {
    var pieces := ReachesFits(es, line[n..], after);
    assert line == line[..n] + (Concat(pieces) + after) == line[..n] + Concat(pieces) + after;
  }

  function OpenEnded(es: seq<Elem>): seq<Elem> {
    if es == [] || es[|es| - 1] != AnySeq then es + [AnySeq] else es
  }

  // The front of an open-ended list of tokens takes no less than the tokens themselves.
  lemma OpenEndedReaches(es: seq<Elem>, line: string, after: string)
    requires Reaches(es, line, after)
    ensures Reaches(OpenEnded(es), line, "")
  {
    if OpenEnded(es) == es {
      var front := es[..|es| - 1];
      assert es == front + [AnySeq];
      var mid := FinalAnySeqTook(front, line, after);
      FinalAnySeqTakes(front, line, mid, "");
    } else {
      FinalAnySeqTakes(es, line, after, "");
    }
  }

  // A "**" in front may take the n characters before the place where the tokens start.
  lemma LeadingAnySeq(es: seq<Elem>, line: string, n: nat)
    requires n <= |line| && Reaches(es, line[n..], "")
    ensures Reaches([AnySeq] + es, line, "")
  {
    FirstAnySeq(es, line, "");
  }

  lemma OccurrenceReaches(es: seq<Elem>, line: string, n: nat, after: string)
    requires n <= |line| && Reaches(es, line[n..], after)
    ensures Reaches(Unanchored(es), line, "")
  {
    var right := OpenEnded(es);
    OpenEndedReaches(es, line[n..], after);
    if right[0] == AnySeq {
      var m := FirstPiece(right, line[n..], "");
      assert line[n..][m..] == line[n + m..];
      assert right == [AnySeq] + right[1..];
      LeadingAnySeq(right[1..], line, n + m);
    } else {
      LeadingAnySeq(right, line, n);
    }
  }

  lemma ReachesOccurrence(es: seq<Elem>, line: string) returns (n: nat, after: string)
    requires Reaches(Unanchored(es), line, "")
    ensures n <= |line| && Reaches(es, line[n..], after)
  {
    var right := OpenEnded(es);
    n := 0;
    assert line[0..] == line;
    if right[0] != AnySeq {
      FirstAnySeq(right, line, "");
      n :| 0 <= n <= |line| && Reaches(right, line[n..], "");
    }
    after := "";
    if right != es {
      after := FinalAnySeqTook(es, line[n..], "");
    }
  }

  // ---- writing a pattern ----

  // The decimal digits of n.
  function Decimal(n: nat): (s: string)
    ensures s != "" && AllDigits(s) && Value(s) == n
  {
    var last := ['0' + (n % 10) as char];
    if n < 10 then
      assert last[..0] == "" && Value(last) == n;
      last
    else
      var s := Decimal(n / 10) + last;
      assert s[..|s| - 1] == Decimal(n / 10);
      s
  }

  function Limit(n: int): string {
    if n < 0 then "" else Decimal(n)
  }

  // Every character of a literal behind a backslash.
  function Escaped(lit: string): string {
    if lit == "" then "" else ['\\', lit[0]] + Escaped(lit[1..])
  }

  // Each pair of a set as a range.
  function Ranges(cs: string): string
    requires |cs| % 2 == 0
  {
    if cs == "" then "" else [cs[0], '-', cs[1]] + Ranges(cs[2..])
  }

  // The pairs of a set that a pattern can contain: a closing brace is a character only in first place,
  // and a dash behind a lone brace in first place only just before the end.
  predicate SetPairs(cs: string) {
    && cs != "" && |cs| % 2 == 0 && '}' !in cs[2..]
    && (cs[1] == '}' ==> cs[0] == '}' && (|cs| > 2 && cs[2] == '-' ==> cs[2..] == "--"))
  }

  // The text of a set. A closing brace that is a pair of its own cannot be written as a range.
  function SetText(cs: string): string
    requires SetPairs(cs)
  {
    if cs[1] != '}' then Ranges(cs)
    else "}" + if cs[2..] == "--" then "-" else Ranges(cs[2..])
  }

  function Written(e: Elem): string
    requires e.Set? || e.NegSet? ==> SetPairs(e.setchars)
  {
    match e
    case LiteralString(lit) => Escaped(lit)
    case AnyChar => "?"
    case CommonChar => "?"
    case Set(cs) => "{" + SetText(cs) + "}"
    case NegSet(cs) => "{^" + SetText(cs) + "}"
    case NumRange(lo, up) => RangeWritten('{', lo, up, '}')
    case AnySeq => "**"
    case CommonSeq => "*"
    case End => ""
  }

  function WrittenAll(es: seq<Elem>): string
    requires forall e | e in es && (e.Set? || e.NegSet?) :: SetPairs(e.setchars)
  {
    if es == [] then ""
    else
      assert es[0] in es;
      assert forall e | e in es[1..] :: e in es;
      Written(es[0]) + WrittenAll(es[1..])
  }

  // A token that some pattern of the given mode contains.
  predicate Writable(e: Elem, dottedpath: bool) {
    match e
    case LiteralString(lit) => lit != ""
    case AnyChar => !dottedpath
    case CommonChar => dottedpath
    case Set(cs) => SetPairs(cs) && cs[0] != '^'
    case NegSet(cs) => SetPairs(cs)
    case NumRange(lo, up) => lo >= -1 && up >= -1
    case AnySeq => true
    case CommonSeq => dottedpath
    case End => false
  }

  // Literals do not touch, and neither does a "*" the asterisk after it.
  predicate Separate(e: Elem, next: Elem) {
    && !(e.LiteralString? && next.LiteralString?)
    && !(e.CommonSeq? && (next.AnySeq? || next.CommonSeq?))
  }

  predicate AllWritable(es: seq<Elem>, dottedpath: bool) {
    && (forall e | e in es :: Writable(e, dottedpath))
    && (forall i {:trigger es[i]} | 0 <= i < |es| - 1 :: Separate(es[i], es[i + 1]))
  }

  // What may come after a token so that it reads back as it is.
  predicate Follows(e: Elem, rest: string) {
    && (e.LiteralString? && rest != "" ==> rest[0] == '?' || rest[0] == '{' || rest[0] == '*')
    && (e.CommonSeq? && rest != "" ==> rest[0] != '*')
  }

  lemma {:induction false} RunOfDigits(digits: string, rest: string)
    requires AllDigits(digits) && (rest != "" ==> !IsDigit(rest[0]))
    ensures Run(digits + rest) == |digits| && (digits + rest)[|digits|..] == rest
    ensures Atol(digits + rest) == Value(digits)
  {
    var s := digits + rest;
    assert s[|digits|..] == rest;
    if digits != "" {
      assert s[1..] == digits[1..] + rest;
      assert AllDigits(digits[1..]);
      RunOfDigits(digits[1..], rest);
    }
    assert s[..|digits|] == digits;
  }

  lemma LimitReadsBack(n: int, rest: string)
    requires n >= -1 && (rest != "" ==> !IsDigit(rest[0]))
    ensures Run(Limit(n) + rest) == |Limit(n)| && (Limit(n) + rest)[|Limit(n)|..] == rest
    ensures n == if |Limit(n)| > 0 then Atol(Limit(n) + rest) else -1
  {
    RunOfDigits(Limit(n), rest);
  }

  lemma RangeFromParts(s: string, closing: char, lo: int, upper: string, up: int, end: string)
    requires s != "" && s[1..][Run(s[1..])..] == ".." + upper && upper[Run(upper)..] == end && end != ""
      && end[0] == closing
    requires lo == if Run(s[1..]) > 0 then Atol(s[1..]) else -1
    requires up == if Run(upper) > 0 then Atol(upper) else -1
    ensures NumRangeAt(s, closing) == Some((lo, up, end))
  {
    assert (".." + upper)[2..] == upper;
  }

  // A number range as it is written, between two brackets or two braces; an omitted limit is -1.
  function RangeWritten(open: char, lo: int, up: int, closing: char): string {
    [open] + Limit(lo) + ".." + Limit(up) + [closing]
  }

  lemma RangeLetters(open: char, lower: string, upper: string, closing: char, rest: string)
    ensures ([open] + lower + ".." + upper + [closing] + rest)[1..] == lower + (".." + (upper + ([closing] + rest)))
  {
  }

  lemma RangeReadsBack(open: char, lo: int, up: int, closing: char, rest: string)
    requires lo >= -1 && up >= -1 && !IsDigit(closing)
    ensures NumRangeAt(RangeWritten(open, lo, up, closing) + rest, closing) == Some((lo, up, [closing] + rest))
  {
    var s := RangeWritten(open, lo, up, closing) + rest;
    var end := [closing] + rest;
    var upper := Limit(up) + end;
    var dots := ".." + upper;
    RangeLetters(open, Limit(lo), Limit(up), closing, rest);
    LimitReadsBack(lo, dots);
    LimitReadsBack(up, end);
    RangeFromParts(s, closing, lo, upper, up, end);
  }

  lemma {:induction false} LiteralReadsBack(lit: string, rest: string)
    requires rest != "" ==> rest[0] == '?' || rest[0] == '{' || rest[0] == '*'
    ensures LiteralAt(Escaped(lit) + rest) == Some((lit, rest))
  {
    if lit == "" {
      assert Escaped(lit) + rest == rest;
    } else {
      var tail := Escaped(lit[1..]) + rest;
      LiteralReadsBack(lit[1..], rest);
      EscapedReadsBack(lit[0], tail, lit[1..], rest);
      assert Escaped(lit) + rest == ['\\', lit[0]] + tail;
      assert [lit[0]] + lit[1..] == lit;
    }
  }

  lemma EscapedReadsBack(c: char, tail: string, lit: string, rest: string)
    requires LiteralAt(tail) == Some((lit, rest)) && !IsDigit(At(tail, 0)) && At(tail, 0) != '.'
    ensures LiteralAt(['\\', c] + tail) == Some(([c] + lit, rest))
  {
    var s := ['\\', c] + tail;
    assert s[1..] == [c] + tail && s[1..][1..] == tail;
    NoRangeHere([c] + tail);
  }

  lemma NoRangeHere(s: string)
    requires s != "" && !IsDigit(At(s, 1)) && At(s, 1) != '.'
    ensures NumRangeAt(s, ']').None?
  {
    assert s[1..][0..] == s[1..];
  }

  lemma {:induction false} RangesReadBack(cs: string, rest: string, first: bool)
    requires |cs| % 2 == 0 && '}' !in (if first && cs != "" then cs[1..] else cs) && (first ==> cs != "")
    ensures RangesAt(Ranges(cs) + "}" + rest, first) == Some((cs, rest))
  {
    var s := Ranges(cs) + "}" + rest;
    if cs == "" {
      assert s == "}" + rest;
    } else {
      assert cs[2..] == (if first then cs[1..][1..] else cs[2..]);
      assert s[3..] == Ranges(cs[2..]) + "}" + rest;
      assert cs[1] == cs[1..][0];
      RangesReadBack(cs[2..], rest, false);
      assert cs == [cs[0], cs[1]] + cs[2..];
    }
  }

  lemma DashReadsBack(rest: string)
    ensures RangesAt("-}" + rest, false) == Some(("--", rest))
  {
    var s := "-}" + rest;
    assert s[1..] == "}" + rest && s[1..][1..] == rest;
    assert RangesAt(s[1..], false) == Some(("", rest));
    assert ['-', '-'] + "" == "--";
  }

  // A lone closing brace in first place, and the pairs behind it.
  lemma LoneBraceReadsBack(tail: string)
    requires RangesAt(tail, false).Some? && (tail[0] == '-' ==> |tail| > 1 && tail[1] == '}')
    ensures var (more, rest) := RangesAt(tail, false).value; RangesAt("}" + tail, true) == Some(("}}" + more, rest))
  {
    var s := "}" + tail;
    assert s[1..] == tail;
  }

  lemma SetTextReadsBack(cs: string, rest: string)
    requires SetPairs(cs)
    ensures RangesAt(SetText(cs) + "}" + rest, true) == Some((cs, rest))
  {
    var more := cs[2..];
    if cs[1] != '}' {
      assert cs[1..] == [cs[1]] + more;
      RangesReadBack(cs, rest, true);
    } else {
      assert cs == "}}" + more;
      var text := if more == "--" then "-" else Ranges(more);
      var tail := text + "}" + rest;
      assert SetText(cs) + "}" + rest == "}" + tail;
      if more == "--" {
        DashReadsBack(rest);
        assert tail == "-}" + rest;
      } else {
        RangesReadBack(more, rest, false);
        assert more != "" ==> tail[0] == more[0];
      }
      LoneBraceReadsBack(tail);
    }
  }

  lemma SetReadsBack(e: Elem, rest: string)
    requires (e.Set? || e.NegSet?) && (Writable(e, true) || Writable(e, false))
    ensures Written(e) != "" && Written(e)[0] == '{'
    ensures NumRangeAt(Written(e) + rest, '}').None? && SetAt(Written(e) + rest) == Some((e, rest))
  {
    var cs, open := e.setchars, if e.Set? then "{" else "{^";
    var body := SetText(cs) + "}" + rest;
    var s := Written(e) + rest;
    assert s == open + body;
    assert body[0] == cs[0] && (cs[0] == '}' || body[1] == '-');
    SetTextReadsBack(cs, rest);
    assert s[|open|..] == body;
    SetIsNoRange(s, body, open);
  }

  // The brace of a set does not open a number range: no two dots come after at most one digit.
  lemma SetIsNoRange(s: string, body: string, open: string)
    requires s == open + body && (open == "{" || open == "{^") && |body| > 1 && (body[0] == '}' || body[1] == '-')
    ensures NumRangeAt(s, '}').None?
  {
    if open == "{" {
      assert s[1..] == body;
      if body[0] != '}' {
        assert Run(body[1..]) == 0;
      }
    } else {
      assert s[1..] == "^" + body;
    }
    assert At(s[1..][Run(s[1..])..], 0) != '.' || At(s[1..][Run(s[1..])..], 1) != '.';
  }

  lemma RangeTokenReadsBack(lo: int, up: int, rest: string, dottedpath: bool, afterLiteral: bool)
    requires lo >= -1 && up >= -1
    ensures TokenAt(Written(NumRange(lo, up)) + rest, dottedpath, afterLiteral) == Some((NumRange(lo, up), rest))
  {
    RangeReadsBack('{', lo, up, '}', rest);
    assert ("}" + rest)[1..] == rest;
  }

  lemma TokenReadsBack(e: Elem, rest: string, dottedpath: bool, afterLiteral: bool)
    requires Writable(e, dottedpath) && Follows(e, rest)
    ensures Written(e) != ""
    ensures TokenAt(Written(e) + rest, dottedpath, afterLiteral) == Some((e, rest))
  {
    var s := Written(e) + rest;
    match e
    case LiteralString(lit) =>
      LiteralReadsBack(lit, rest);
      assert s[0] == '\\';
    case Set(_) =>
      SetReadsBack(e, rest);
      assert s[0] == '{';
    case NegSet(_) =>
      SetReadsBack(e, rest);
      assert s[0] == '{';
    case NumRange(lo, up) =>
      RangeTokenReadsBack(lo, up, rest, dottedpath, afterLiteral);
    case AnySeq => assert s[2..] == rest;
    case AnyChar => assert s[1..] == rest;
    case CommonChar => assert s[1..] == rest;
    case CommonSeq => assert s[1..] == rest;
    case End =>
  }

  // Tokens written as a pattern read back as they were.
  lemma {:induction false} TokensReadBack(es: seq<Elem>, dottedpath: bool, afterLiteral: bool)
    requires AllWritable(es, dottedpath)
    ensures Tokens(WrittenAll(es), dottedpath, afterLiteral) == Some(es)
  {
    if es != [] {
      var e, more := es[0], es[1..];
      assert es == [e] + more;
      assert AllWritable(more, dottedpath) by {
        assert forall i | 0 <= i < |more| :: more[i] == es[i + 1];
      }
      var rest := WrittenAll(more);
      assert Follows(e, rest) by {
        if more != [] {
          assert Separate(es[0], es[1]);
          StartOfToken(more, dottedpath);
        }
      }
      TokenReadsBack(e, rest, dottedpath, afterLiteral);
      TokensReadBack(more, dottedpath, e.LiteralString?);
    }
  }

  lemma StartOfToken(es: seq<Elem>, dottedpath: bool)
    requires es != [] && AllWritable(es, dottedpath)
    ensures WrittenAll(es) != ""
    ensures es[0].LiteralString? || WrittenAll(es)[0] == '?' || WrittenAll(es)[0] == '{' || WrittenAll(es)[0] == '*'
    ensures WrittenAll(es)[0] == '*' ==> es[0].AnySeq? || es[0].CommonSeq?
  {
    assert es[0] in es && Writable(es[0], dottedpath);
    assert Written(es[0]) != "";
  }

  // ---- the lists of tokens that patterns give ----

  lemma {:induction false} LaterRangesHoldNoBrace(s: string)
    requires RangesAt(s, false).Some?
    ensures '}' !in RangesAt(s, false).value.0
  {
    if s[0] != '}' {
      var wide := At(s, 1) == '-' && |s| > 2 && s[2] != '}';
      LaterRangesHoldNoBrace(if wide then s[3..] else s[1..]);
    }
  }

  lemma RangesGiveSetPairs(s: string)
    requires RangesAt(s, true).Some?
    ensures SetPairs(RangesAt(s, true).value.0) && RangesAt(s, true).value.0[0] == s[0]
  {
    var wide := At(s, 1) == '-' && |s| > 2 && s[2] != '}';
    var tail := if wide then s[3..] else s[1..];
    LaterRangesHoldNoBrace(tail);
    var cs, more := RangesAt(s, true).value.0, RangesAt(tail, false).value.0;
    assert cs == [s[0], if wide then s[2] else s[0]] + more;
    assert cs[2..] == more;
    if !wide && more != "" && more[0] == '-' {
      assert tail[0] == '-' && tail != "-";
      assert tail[1] == s[2] == '}' && tail[1..][0] == '}';
      assert RangesAt(tail[1..], false).value.0 == "";
      assert more == ['-', '-'] + "";
    }
  }

  lemma SetIsWritable(s: string, dottedpath: bool)
    requires s != "" && SetAt(s).Some?
    ensures Writable(SetAt(s).value.0, dottedpath)
  {
    var body := if At(s, 1) == '^' then s[2..] else s[1..];
    RangesGiveSetPairs(body);
  }

  lemma TokenIsWritable(s: string, dottedpath: bool, afterLiteral: bool)
    requires s != "" && TokenAt(s, dottedpath, afterLiteral).Some?
    ensures Writable(TokenAt(s, dottedpath, afterLiteral).value.0, dottedpath)
  {
    if s[0] == '{' && NumRangeAt(s, '}').None? {
      SetIsWritable(s, dottedpath);
    }
  }

  // A literal takes all it can: the next token is not another one.
  lemma {:induction false} AfterALiteral(s: string)
    requires LiteralAt(s).Some? && LiteralAt(s).value.1 != ""
    ensures var rest := LiteralAt(s).value.1;
      rest[0] == '?' || rest[0] == '{' || rest[0] == '*' || (rest[0] == '[' && NumRangeAt(rest, ']').Some?)
  {
    if !(s == "" || s[0] == '?' || s[0] == '{' || s[0] == '*') {
      var t := if s[0] == '\\' then s[1..] else s;
      if !(t[0] == '[' && NumRangeAt(t, ']').Some?) {
        AfterALiteral(t[1..]);
      }
    }
  }

  lemma TokensAreSeparate(s: string, dottedpath: bool, afterLiteral: bool)
    requires s != "" && TokenAt(s, dottedpath, afterLiteral).Some?
    ensures var (e, rest) := TokenAt(s, dottedpath, afterLiteral).value;
      (rest != "" && TokenAt(rest, dottedpath, e.LiteralString?).Some?)
        ==> Separate(e, TokenAt(rest, dottedpath, e.LiteralString?).value.0)
  {
    var (e, rest) := TokenAt(s, dottedpath, afterLiteral).value;
    if e.LiteralString? && rest != "" {
      AfterALiteral(s);
    }
  }

  lemma {:induction false} TokensAreWritable(s: string, dottedpath: bool, afterLiteral: bool)
    requires Tokens(s, dottedpath, afterLiteral).Some?
    ensures AllWritable(Tokens(s, dottedpath, afterLiteral).value, dottedpath)
    decreases |s|, !afterLiteral
  {
    if s != "" {
      var (e, rest) := TokenAt(s, dottedpath, afterLiteral).value;
      TokenIsWritable(s, dottedpath, afterLiteral);
      TokensAreSeparate(s, dottedpath, afterLiteral);
      TokensAreWritable(rest, dottedpath, e.LiteralString?);
      var es, more := Tokens(s, dottedpath, afterLiteral).value, Tokens(rest, dottedpath, e.LiteralString?).value;
      assert es == [e] + more;
      assert forall i {:trigger es[i]} | 1 <= i < |es| :: es[i] == more[i - 1];
      assert more != [] ==> more[0] == TokenAt(rest, dottedpath, e.LiteralString?).value.0;
    }
  }

  // The lists of tokens that patterns give are exactly the writable ones.
  lemma WritableExactlyWhen(es: seq<Elem>, dottedpath: bool)
    ensures AllWritable(es, dottedpath) <==> exists s :: Tokens(s, dottedpath, false) == Some(es)
  {
    if AllWritable(es, dottedpath) {
      TokensReadBack(es, dottedpath, false);
    }
    if s :| Tokens(s, dottedpath, false) == Some(es) {
      TokensAreWritable(s, dottedpath, false);
    }
  }

  // ---- number ranges ----

  lemma BracketRangeAtStart(t: string, lo: int, up: int, dottedpath: bool)
    requires lo >= -1 && up >= -1 && t == RangeWritten('[', lo, up, ']')
    ensures Tokens(t, dottedpath, false) == Some([LiteralString("[")] + ([NumRange(lo, up)] + [LiteralString("]")]))
  {
    RangeReadsBack('[', lo, up, ']', "");
    assert t + "" == t && [']'] + "" == "]";
    ClosingBracket(dottedpath);
    RangeToken(t, dottedpath);
    assert LiteralAt(t) == Some((['['], t));
    LiteralStart(t, dottedpath, false);
  }

  // Behind plain text a number range in brackets is read, and the brackets are literal.
  lemma BracketRangeReadsBack(text: string, lo: int, up: int, dottedpath: bool)
    requires Plain(text) && lo >= -1 && up >= -1
    ensures Tokens(text + RangeWritten('[', lo, up, ']'), dottedpath, false)
      == Some([LiteralString(text + "[")] + ([NumRange(lo, up)] + [LiteralString("]")]))
  {
    var t, es := RangeWritten('[', lo, up, ']'), [NumRange(lo, up)] + [LiteralString("]")];
    BracketRangeAtStart(t, lo, up, dottedpath);
    assert ([LiteralString("[")] + es)[1..] == es;
    if text == "" {
      assert text + t == t && text + "[" == "[";
    } else {
      PlainTextJoins(text, t, dottedpath, false);
    }
  }

  // A number within the limits that are given.
  ghost predicate NumberWithin(digits: string, lo: int, up: int) {
    && digits != "" && AllDigits(digits)
    && (lo != -1 ==> lo <= Value(digits)) && (up != -1 ==> Value(digits) <= up)
  }

  // It describes exactly the lines with a number within the limits between the brackets.
  lemma BracketRangeDescribes(text: string, lo: int, up: int, dottedpath: bool, line: string)
    requires Plain(text) && lo >= -1 && up >= -1
    ensures Tokens(text + RangeWritten('[', lo, up, ']'), dottedpath, false).Some?
    ensures Describes(Tokens(text + RangeWritten('[', lo, up, ']'), dottedpath, false).value, line) <==>
      exists digits :: NumberWithin(digits, lo, up) && line == text + "[" + digits + "]"
  {
    BracketRangeReadsBack(text, lo, up, dottedpath);
    NumberBetween(text + "[", lo, up, "]", line);
  }

  lemma NumberBetween(before: string, lo: int, up: int, after: string, line: string)
    requires lo >= -1 && up >= -1 && after != "" && !IsDigit(after[0])
    ensures Describes([LiteralString(before)] + ([NumRange(lo, up)] + [LiteralString(after)]), line) <==>
      exists digits :: NumberWithin(digits, lo, up) && line == before + digits + after
  {
    var es := [NumRange(lo, up)] + [LiteralString(after)];
    DescribesIsReaches([LiteralString(before)] + es, line);
    LiteralFirst(before, es, line);
    if |before| <= |line| && line[..|before|] == before && Reaches(es, line[|before|..], "") {
      var digits := NumberFound(lo, up, after, line[|before|..]);
      assert line == before + line[|before|..] == before + digits + after;
    }
    if digits :| NumberWithin(digits, lo, up) && line == before + digits + after {
      assert line[..|before|] == before && line[|before|..] == digits + after;
      NumberReaches(lo, up, after, digits);
    }
  }

  lemma NumberFound(lo: int, up: int, after: string, line: string) returns (digits: string)
    requires lo >= -1 && up >= -1 && Reaches([NumRange(lo, up)] + [LiteralString(after)], line, "")
    ensures NumberWithin(digits, lo, up) && line == digits + after
  {
    var es := [NumRange(lo, up)] + [LiteralString(after)];
    var n := FirstPiece(es, line, "");
    assert es[1..] == [LiteralString(after)];
    OneLiteral(after, line[n..]);
    digits := line[..n];
  }

  lemma NumberReaches(lo: int, up: int, after: string, digits: string)
    requires NumberWithin(digits, lo, up) && after != "" && !IsDigit(after[0])
    ensures Reaches([NumRange(lo, up)] + [LiteralString(after)], digits + after, "")
  {
    var es, line, n := [NumRange(lo, up)] + [LiteralString(after)], digits + after, |digits|;
    assert es[1..] == [LiteralString(after)] && line[..n] == digits && line[n..] == after;
    OneLiteral(after, after);
    assert Accepts(es[0], line[..n], line[n..]) && Reaches(es[1..], line[n..], "");
  }

  // A range in braces describes the number alone.
  lemma BraceRangeDescribes(lo: int, up: int, dottedpath: bool, line: string)
    requires lo >= -1 && up >= -1
    ensures Tokens(RangeWritten('{', lo, up, '}'), dottedpath, false).Some?
    ensures Describes(Tokens(RangeWritten('{', lo, up, '}'), dottedpath, false).value, line) <==>
      NumberWithin(line, lo, up)
  {
    RangeTokenReadsBack(lo, up, "", dottedpath, false);
    var t := RangeWritten('{', lo, up, '}');
    assert t + "" == t && Tokens("", dottedpath, false) == Some([]);
    assert [NumRange(lo, up)] + [] == [NumRange(lo, up)];
    OneToken(NumRange(lo, up), line);
  }

  // ---- sets of single characters ----

  // Every character as a pair of its own.
  function Doubled(chars: string): (cs: string)
    ensures |cs| == 2 * |chars|
  {
    if chars == "" then "" else [chars[0], chars[0]] + Doubled(chars[1..])
  }

  lemma {:induction false} InDoubled(c: char, chars: string)
    ensures InSet(c, Doubled(chars)) <==> c in chars
  {
    if chars != "" {
      InDoubled(c, chars[1..]);
      InOnePairMore(c, chars[0], Doubled(chars[1..]));
      assert chars == [chars[0]] + chars[1..];
    }
  }

  lemma InOnePairMore(c: char, d: char, cs: string)
    requires |cs| % 2 == 0
    ensures InSet(c, [d, d] + cs) <==> c == d || InSet(c, cs)
  {
    var more := [d, d] + cs;
    assert more[2 * 0] == d == more[2 * 0 + 1];
    forall i | 0 <= i < |cs| / 2 ensures more[2 * (i + 1)] == cs[2 * i] && more[2 * (i + 1) + 1] == cs[2 * i + 1] {
    }
    if InSet(c, more) && c != d {
      var i :| 0 <= i < |more| / 2 && more[2 * i] <= c <= more[2 * i + 1];
      assert i > 0 && more[2 * (i - 1 + 1)] == cs[2 * (i - 1)];
    }
    if InSet(c, cs) {
      var i :| 0 <= i < |cs| / 2 && cs[2 * i] <= c <= cs[2 * i + 1];
      assert more[2 * (i + 1)] <= c <= more[2 * (i + 1) + 1];
    }
  }

  lemma {:induction false} CharsReadBack(chars: string, rest: string, first: bool)
    requires '}' !in chars && '-' !in chars && (first ==> chars != "")
    ensures RangesAt(chars + "}" + rest, first) == Some((Doubled(chars), rest))
  {
    var s := chars + "}" + rest;
    if chars == "" {
      assert s == "}" + rest;
    } else {
      assert s[0] in chars && s[1..] == chars[1..] + "}" + rest;
      assert |chars| > 1 ==> s[1] == chars[1] && chars[1] in chars;
      CharsReadBack(chars[1..], rest, false);
    }
  }

  // Characters in braces describe one character among them; behind a caret, one that is not among them.
  lemma SetOfChars(chars: string, neg: bool, dottedpath: bool, line: string)
    requires chars != "" && '}' !in chars && '-' !in chars && '.' !in chars && chars[0] != '^'
    ensures Tokens((if neg then "{^" else "{") + chars + "}", dottedpath, false).Some?
    ensures Describes(Tokens((if neg then "{^" else "{") + chars + "}", dottedpath, false).value, line)
      <==> |line| == 1 && (line[0] in chars <==> !neg)
  {
    var s := (if neg then "{^" else "{") + chars + "}";
    var e := if neg then NegSet(Doubled(chars)) else Set(Doubled(chars));
    SetOfCharsReadBack(s, chars, neg);
    assert Tokens("", dottedpath, false) == Some([]);
    assert Tokens(s, dottedpath, false) == Some([e]) by {
      assert [e] + [] == [e];
    }
    OneToken(e, line);
    if |line| == 1 {
      InDoubled(line[0], chars);
    }
  }

  lemma SetOfCharsReadBack(s: string, chars: string, neg: bool)
    requires chars != "" && '}' !in chars && '-' !in chars && '.' !in chars && chars[0] != '^'
    requires s == (if neg then "{^" else "{") + chars + "}"
    ensures NumRangeAt(s, '}').None?
    ensures SetAt(s) == Some((if neg then NegSet(Doubled(chars)) else Set(Doubled(chars)), ""))
  {
    var body := chars + "}" + "";
    assert body == chars + "}";
    CharsReadBack(chars, "", true);
    assert s[if neg then 2 else 1..] == body;
    var tail := s[1..][Run(s[1..])..];
    forall i | 0 <= i < |s| ensures s[i] != '.' {
      assert s[i] in chars || s[i] == '{' || s[i] == '^' || s[i] == '}';
    }
    assert tail != "" ==> tail[0] == s[1 + Run(s[1..])];
  }

  lemma OneToken(e: Elem, line: string)
    ensures Describes([e], line) <==> Accepts(e, line, "")
  {
    var es := [e];
    assert es[1..] == [] && line[..|line|] == line && line[|line|..] == "";
    DescribesIsReaches(es, line);
    if Reaches(es, line, "") {
      var n := FirstPiece(es, line, "");
      assert line[n..] == "" && n == |line|;
    } else if Accepts(e, line, "") {
      assert Accepts(es[0], line[..|line|], line[|line|..]) && Reaches(es[1..], line[|line|..], "");
    }
  }

  // ---- what a backslash hides ----

  // The text, standing for itself, in front of what the tokens describe.
  function WithText(text: string, es: seq<Elem>): seq<Elem> {
    if es != [] && es[0].LiteralString? then [LiteralString(text + es[0].literal)] + es[1..]
    else [LiteralString(text)] + es
  }

  // Characters that stand for themselves wherever they are outside braces and bracket ranges.
  predicate Plain(text: string) {
    forall c | c in text :: c != '?' && c != '{' && c != '*' && c != '\\' && c != '['
  }

  // A bracket at c opens a number range that is closed by a bracket.
  predicate OpensRange(c: char, tail: string) {
    c == '[' && NumRangeAt([c] + tail, ']').Some?
  }

  lemma LiteralFirst(lit: string, es: seq<Elem>, line: string)
    ensures Reaches([LiteralString(lit)] + es, line, "") <==>
      (|lit| <= |line| && line[..|lit|] == lit && Reaches(es, line[|lit|..], ""))
  {
    var all := [LiteralString(lit)] + es;
    assert all[0] == LiteralString(lit) && all[1..] == es;
    if |lit| <= |line| && line[..|lit|] == lit {
      FixedLength(all, line, "", |lit|);
    } else {
      NoPrefix(all, line, "");
    }
  }

  // The text is taken for itself: a line of the tokens with the text in front.
  lemma WithTextDescribes(text: string, es: seq<Elem>, line: string)
    ensures Describes(WithText(text, es), text + line) <==> Describes(es, line)
  {
    DescribesIsReaches(WithText(text, es), text + line);
    DescribesIsReaches(es, line);
    assert (text + line)[..|text|] == text && (text + line)[|text|..] == line;
    if es != [] && es[0].LiteralString? {
      var lit := es[0].literal;
      assert es == [LiteralString(lit)] + es[1..];
      LiteralFirst(text + lit, es[1..], text + line);
      LiteralFirst(lit, es[1..], line);
      LongerPrefix(text, lit, line);
    } else {
      LiteralFirst(text, es, text + line);
    }
  }

  lemma LongerPrefix(text: string, lit: string, line: string)
    ensures |text + lit| <= |text + line| && (text + line)[..|text + lit|] == text + lit <==>
      |lit| <= |line| && line[..|lit|] == lit
    ensures |lit| <= |line| ==> (text + line)[|text + lit|..] == line[|lit|..]
  {
    if |lit| <= |line| {
      assert (text + line)[..|text + lit|] == text + line[..|lit|];
      assert (text + lit)[|text|..] == lit && (text + line[..|lit|])[|text|..] == line[..|lit|];
    }
  }

  // Where a literal starts, it is the first token; what was before matters only for a bracket range.
  lemma LiteralStart(s: string, dottedpath: bool, afterLiteral: bool)
    requires s != "" && s[0] != '?' && s[0] != '{' && s[0] != '*' && (s[0] != '[' || !afterLiteral)
    ensures LiteralAt(s).None? ==> Tokens(s, dottedpath, afterLiteral).None?
    ensures LiteralAt(s).Some? ==>
      var (lit, rest) := LiteralAt(s).value;
      Tokens(s, dottedpath, afterLiteral) == PrefixedTokens([LiteralString(lit)], Tokens(rest, dottedpath, true))
  {
  }

  predicate StartsLiteral(s: string) {
    s != "" && s[0] != '?' && s[0] != '{' && s[0] != '*'
  }

  lemma NoLiteralStart(s: string, dottedpath: bool)
    requires !StartsLiteral(s)
    ensures LiteralAt(s) == Some(("", s)) && Tokens(s, dottedpath, true) == Tokens(s, dottedpath, false)
  {
  }

  // A literal that starts with text and goes on as tail does: the text joins the first token of the tail.
  lemma LiteralJoins(text: string, s: string, tail: string, dottedpath: bool, afterLiteral: bool)
    requires StartsLiteral(s) && s[0] != '[' && LiteralAt(s) == Prefixed(text, LiteralAt(tail))
    ensures Tokens(tail, dottedpath, false).None? ==> Tokens(s, dottedpath, afterLiteral).None?
    ensures Tokens(tail, dottedpath, false).Some? ==>
      Tokens(s, dottedpath, afterLiteral) == Some(WithText(text, Tokens(tail, dottedpath, false).value))
  {
    LiteralStart(s, dottedpath, afterLiteral);
    if StartsLiteral(tail) {
      LiteralStart(tail, dottedpath, false);
    } else {
      NoLiteralStart(tail, dottedpath);
      NotALiteral(tail, dottedpath);
    }
  }

  lemma NotALiteral(s: string, dottedpath: bool)
    requires !StartsLiteral(s)
    ensures Tokens(s, dottedpath, false).Some? ==>
      var es := Tokens(s, dottedpath, false).value;
      es == [] || !es[0].LiteralString?
  {
  }

  // A character that is no bracket of a range joins the literal after it, when it stands behind a backslash.
  lemma OrdinaryCharacter(c: char, tail: string, dottedpath: bool, afterLiteral: bool)
    requires !OpensRange(c, tail)
    ensures Tokens(tail, dottedpath, false).None? ==> Tokens(['\\', c] + tail, dottedpath, afterLiteral).None?
    ensures Tokens(tail, dottedpath, false).Some? ==>
      Tokens(['\\', c] + tail, dottedpath, afterLiteral) == Some(WithText([c], Tokens(tail, dottedpath, false).value))
  {
    var s := ['\\', c] + tail;
    BackslashedLiteral(s, c, tail);
    LiteralJoins([c], s, tail, dottedpath, afterLiteral);
  }

  lemma BackslashedLiteral(s: string, c: char, tail: string)
    requires s == ['\\', c] + tail && !OpensRange(c, tail)
    ensures LiteralAt(s) == Prefixed([c], LiteralAt(tail))
  {
    assert s[1..] == [c] + tail && s[1..][1..] == tail;
  }

  // Plain text stands for itself at the start of a pattern.
  lemma {:induction false} PlainText(text: string, rest: string)
    requires Plain(text)
    ensures LiteralAt(text + rest) == Prefixed(text, LiteralAt(rest))
  {
    if text == "" {
      assert text + rest == rest;
    } else {
      var s, more := text + rest, text[1..];
      assert s[1..] == more + rest && text[0] in text;
      assert forall c | c in more :: c in text;
      PlainText(more, rest);
      PrefixedTwice([text[0]], more, LiteralAt(rest));
      assert [text[0]] + more == text;
    }
  }

  // It joins the literal after it.
  lemma PlainTextJoins(text: string, s: string, dottedpath: bool, afterLiteral: bool)
    requires text != "" && Plain(text)
    ensures Tokens(s, dottedpath, false).None? ==> Tokens(text + s, dottedpath, afterLiteral).None?
    ensures Tokens(s, dottedpath, false).Some? ==>
      Tokens(text + s, dottedpath, afterLiteral) == Some(WithText(text, Tokens(s, dottedpath, false).value))
  {
    assert text[0] in text && (text + s)[0] == text[0];
    PlainText(text, s);
    LiteralJoins(text, text + s, s, dottedpath, afterLiteral);
  }

  // The text of a number range: digits, two dots, digits, and the closing bracket.
  lemma RangeShape(s: string, closing: char)
    requires s != "" && NumRangeAt(s, closing).Some?
    ensures |s[1..]| > Run(s[1..]) + 1 && s[1..][Run(s[1..])] == '.' == s[1..][Run(s[1..]) + 1]
    ensures var upper := s[1..][Run(s[1..])..][2..]; NumRangeAt(s, closing).value.2 == upper[Run(upper)..]
  {
  }

  lemma DottedText(s: string, n: nat, upper: string, m: nat)
    requires n + 2 <= |s| && AllDigits(s[..n]) && s[n] == '.' == s[n + 1]
    requires upper == s[n..][2..] && m <= |upper| && AllDigits(upper[..m])
    ensures n + 2 + m <= |s| && s[n + 2 + m..] == upper[m..]
    ensures forall i | 0 <= i < n + 2 + m :: IsDigit(s[i]) || s[i] == '.'
  {
    assert upper == s[n + 2..];
    forall i | 0 <= i < n + 2 + m ensures IsDigit(s[i]) || s[i] == '.' {
      if i < n {
        assert s[i] == s[..n][i];
      } else if i >= n + 2 {
        assert s[i] == upper[..m][i - n - 2];
      }
    }
  }

  // A bracket range taken apart: what stands between the bracket and the closing one.
  lemma RangeText(tail: string) returns (text: string, rest: string)
    requires OpensRange('[', tail)
    ensures tail == text + rest && rest == NumRangeAt(['['] + tail, ']').value.2
    ensures forall i | 0 <= i < |text| :: IsDigit(text[i]) || text[i] == '.'
    ensures Run(tail) < |text| && text[Run(tail)] == '.'
  {
    var s := ['['] + tail;
    assert s[1..] == tail;
    RangeShape(s, ']');
    var n := Run(tail);
    var upper := tail[n..][2..];
    var m := Run(upper);
    DottedText(tail, n, upper, m);
    text, rest := tail[..n + 2 + m], tail[n + 2 + m..];
  }

  lemma RangeToken(t: string, dottedpath: bool)
    requires t != "" && t[0] == '[' && NumRangeAt(t, ']').Some?
    ensures var (lo, up, rest) := NumRangeAt(t, ']').value;
      Tokens(t, dottedpath, true) == PrefixedTokens([NumRange(lo, up)], Tokens(rest, dottedpath, false))
  {
    var (lo, up, rest) := NumRangeAt(t, ']').value;
    assert TokenAt(t, dottedpath, true) == Some((NumRange(lo, up), rest));
  }

  lemma BackslashedBracket(t: string, dottedpath: bool, afterLiteral: bool)
    requires t != "" && t[0] == '[' && NumRangeAt(t, ']').Some?
    ensures Tokens(['\\'] + t, dottedpath, afterLiteral)
      == PrefixedTokens([LiteralString("[")], Tokens(t, dottedpath, true))
  {
    var s := ['\\'] + t;
    assert s[1..] == t;
    assert LiteralAt(s) == Some((['['], t));
    assert TokenAt(s, dottedpath, afterLiteral) == Some((LiteralString(['[']), t));
  }

  lemma BackslashedRange(t: string, dottedpath: bool, afterLiteral: bool)
    requires t != "" && t[0] == '[' && NumRangeAt(t, ']').Some?
    ensures var (lo, up, rest) := NumRangeAt(t, ']').value;
      Tokens(['\\'] + t, dottedpath, afterLiteral)
        == PrefixedTokens([LiteralString("[")], PrefixedTokens([NumRange(lo, up)], Tokens(rest, dottedpath, false)))
  {
    RangeToken(t, dottedpath);
    BackslashedBracket(t, dottedpath, afterLiteral);
  }

  // Without its opening bracket the text of a range is literal.
  lemma RangeTextIsLiteral(tail: string, dottedpath: bool) returns (text: string, lit: string, more: seq<Elem>)
    requires OpensRange('[', tail) && Tokens(tail, dottedpath, false).Some?
    ensures Tokens(tail, dottedpath, false) == Some([LiteralString(text + lit)] + more)
    ensures Tokens(NumRangeAt(['['] + tail, ']').value.2, dottedpath, false) == Some([LiteralString(lit)] + more)
    ensures |text| <= |tail| && text == tail[..|text|] && Run(tail) < |text| && text[Run(tail)] == '.'
    ensures lit != "" && lit[0] == ']'
  {
    var rest;
    text, rest := RangeText(tail);
    PlainTextJoins(text, rest, dottedpath, false);
    lit, more := BracketIsLiteral(rest, dottedpath);
  }

  lemma BracketIsLiteral(s: string, dottedpath: bool) returns (lit: string, more: seq<Elem>)
    requires s != "" && s[0] == ']' && Tokens(s, dottedpath, false).Some?
    ensures Tokens(s, dottedpath, false) == Some([LiteralString(lit)] + more) && lit != "" && lit[0] == ']'
  {
    LiteralStart(s, dottedpath, false);
    lit := LiteralAt(s).value.0;
    more := Tokens(LiteralAt(s).value.1, dottedpath, true).value;
  }

  // Behind a backslash the bracket of a range stays the start of that range.
  lemma RangeInSpite(t: string, dottedpath: bool, afterLiteral: bool, es: seq<Elem>)
    requires t != "" && t[0] == '[' && NumRangeAt(t, ']').Some?
    requires Tokens(NumRangeAt(t, ']').value.2, dottedpath, false) == Some(es)
    ensures var (lo, up, rest) := NumRangeAt(t, ']').value;
      Tokens(['\\'] + t, dottedpath, afterLiteral) == Some([LiteralString("[")] + ([NumRange(lo, up)] + es))
  {
    BackslashedRange(t, dottedpath, afterLiteral);
  }

  // The same text without and with a backslash and a bracket in front.
  lemma BothReadings(tail: string, dottedpath: bool)
      returns (text: string, lit: string, more: seq<Elem>, lo: int, up: int)
    requires OpensRange('[', tail) && Tokens(tail, dottedpath, false).Some?
    ensures Tokens(tail, dottedpath, false) == Some([LiteralString(text + lit)] + more)
    ensures Tokens(['\\', '['] + tail, dottedpath, false)
      == Some([LiteralString("[")] + ([NumRange(lo, up)] + ([LiteralString(lit)] + more)))
    ensures |text| <= |tail| && text == tail[..|text|] && Run(tail) < |text| && text[Run(tail)] == '.'
    ensures lit != "" && lit[0] == ']'
  {
    var t := ['['] + tail;
    text, lit, more := RangeTextIsLiteral(tail, dottedpath);
    RangeInSpite(t, dottedpath, false, [LiteralString(lit)] + more);
    lo, up := NumRangeAt(t, ']').value.0, NumRangeAt(t, ']').value.1;
    assert ['\\'] + t == ['\\', '['] + tail;
  }

  // Such a range reads a number, so it cannot read the text of the range itself.
  lemma RangeMissesItsText(lo: int, up: int, tail: string, text: string, lit: string, more: seq<Elem>, line: string)
    requires |text| <= |tail| && text == tail[..|text|] && Run(tail) < |text| && text[Run(tail)] == '.'
    requires lit != "" && lit[0] == ']'
    requires Describes([LiteralString(text + lit)] + more, line)
    ensures !Describes([LiteralString("[")] + ([NumRange(lo, up)] + ([LiteralString(lit)] + more)), ['['] + line)
  {
    DescribesIsReaches([LiteralString(text + lit)] + more, line);
    LiteralFirst(text + lit, more, line);
    assert line[..|text|] == text;
    var es := [NumRange(lo, up)] + ([LiteralString(lit)] + more);
    DescribesIsReaches([LiteralString("[")] + es, ['['] + line);
    LiteralFirst("[", es, ['['] + line);
    assert (['['] + line)[1..] == line;
    if Reaches(es, line, "") {
      assert es[1..] == [LiteralString(lit)] + more;
      var n := FirstPiece(es, line, "");
      NumberTakesTheRun(lo, up, line, n);
      LiteralFirst(lit, more, line[n..]);
      assert line[n] == line[n..][0] == line[n..][..|lit|][0];
      SameRun(tail, line, text);
    }
  }

  // Two texts that agree up to a character that is no digit start with the same digits.
  lemma {:induction false} SameRun(s: string, t: string, text: string)
    requires |text| <= |s| && |text| <= |t| && s[..|text|] == text == t[..|text|] && Run(s) < |text|
    ensures Run(t) == Run(s) && t[Run(t)] == text[Run(s)]
  {
    assert s[0] == text[0] == t[0];
    if Run(s) > 0 {
      assert s[1..][..|text| - 1] == text[1..] == t[1..][..|text| - 1];
      SameRun(s[1..], t[1..], text[1..]);
    }
  }

  // Behind plain text the tokens of a pattern describe what they describe without it.
  lemma BehindPlainText(text: string, s: string, dottedpath: bool, afterLiteral: bool, line: string)
    requires Plain(text) && Tokens(s, dottedpath, false).Some?
    requires text == "" ==> Tokens(s, dottedpath, afterLiteral) == Tokens(s, dottedpath, false)
    ensures Tokens(text + s, dottedpath, afterLiteral).Some?
    ensures Describes(Tokens(text + s, dottedpath, afterLiteral).value, text + line) <==>
      Describes(Tokens(s, dottedpath, false).value, line)
  {
    if text == "" {
      assert text + s == s && text + line == line;
    } else {
      PlainTextJoins(text, s, dottedpath, afterLiteral);
      WithTextDescribes(text, Tokens(s, dottedpath, false).value, line);
    }
  }

  lemma BackslashStartsAlike(s: string, dottedpath: bool, afterLiteral: bool)
    requires s != "" && s[0] == '\\'
    ensures Tokens(s, dottedpath, afterLiteral) == Tokens(s, dottedpath, false)
  {
  }

  // A backslash hides the character after it, unless that is the bracket of a number range: the pattern
  // describes the text before the backslash, c, and any line of the tail exactly when no bracket range starts at c.
  lemma BackslashHidesExactlyWhen(text: string, c: char, tail: string, dottedpath: bool, afterLiteral: bool,
      line: string)
    requires Plain(text)
    requires Tokens(tail, dottedpath, false).Some? && Describes(Tokens(tail, dottedpath, false).value, line)
    ensures Tokens(text + (['\\', c] + tail), dottedpath, afterLiteral).Some?
    ensures Describes(Tokens(text + (['\\', c] + tail), dottedpath, afterLiteral).value, text + ([c] + line))
      <==> !OpensRange(c, tail)
  {
    var s := ['\\', c] + tail;
    FirstBackslashHides(c, tail, dottedpath, line);
    BackslashStartsAlike(s, dottedpath, afterLiteral);
    BehindPlainText(text, s, dottedpath, afterLiteral, [c] + line);
  }

  lemma FirstBackslashHides(c: char, tail: string, dottedpath: bool, line: string)
    requires Tokens(tail, dottedpath, false).Some? && Describes(Tokens(tail, dottedpath, false).value, line)
    ensures Tokens(['\\', c] + tail, dottedpath, false).Some?
    ensures Describes(Tokens(['\\', c] + tail, dottedpath, false).value, [c] + line) <==> !OpensRange(c, tail)
  {
    if OpensRange(c, tail) {
      var text, lit, more, lo, up := BothReadings(tail, dottedpath);
      RangeMissesItsText(lo, up, tail, text, lit, more, line);
    } else {
      OrdinaryCharacter(c, tail, dottedpath, false);
      WithTextDescribes([c], Tokens(tail, dottedpath, false).value, line);
    }
  }

  // The same on the tokens: the text and c are read as characters of their own exactly when no bracket range
  // starts at c.
  lemma BackslashReadsExactlyWhen(text: string, c: char, tail: string, dottedpath: bool, afterLiteral: bool)
    requires Plain(text) && Tokens(tail, dottedpath, false).Some?
    ensures !OpensRange(c, tail) <==>
      Tokens(text + (['\\', c] + tail), dottedpath, afterLiteral)
        == Some(WithText(text + [c], Tokens(tail, dottedpath, false).value))
  {
    var s := ['\\', c] + tail;
    var es := Tokens(tail, dottedpath, false).value;
    FirstBackslashReads(c, tail, dottedpath);
    BackslashStartsAlike(s, dottedpath, afterLiteral);
    if text == "" {
      assert text + s == s && text + [c] == [c];
    } else {
      PlainTextJoins(text, s, dottedpath, afterLiteral);
      if OpensRange(c, tail) {
        var lit := Tokens(s, dottedpath, false).value[0].literal;
        assert |WithText(text, Tokens(s, dottedpath, false).value)[0].literal| == |text| + 1;
      } else {
        TextInFront(text, c, es);
      }
    }
  }

  lemma TextInFront(text: string, c: char, es: seq<Elem>)
    ensures WithText(text, WithText([c], es)) == WithText(text + [c], es)
  {
    var inner := WithText([c], es);
    if es != [] && es[0].LiteralString? {
      assert inner[1..] == es[1..];
      assert text + ([c] + es[0].literal) == text + [c] + es[0].literal;
    } else {
      assert inner[1..] == es;
    }
  }

  lemma FirstBackslashReads(c: char, tail: string, dottedpath: bool)
    requires Tokens(tail, dottedpath, false).Some?
    ensures Tokens(['\\', c] + tail, dottedpath, false).Some?
    ensures var es, all := Tokens(tail, dottedpath, false).value, Tokens(['\\', c] + tail, dottedpath, false).value;
      if OpensRange(c, tail) then all != [] && all[0] == LiteralString("[") && |WithText([c], es)[0].literal| > 1
      else all == WithText([c], es)
  {
    if OpensRange(c, tail) {
      var text, lit, more, lo, up := BothReadings(tail, dottedpath);
      assert WithText([c], [LiteralString(text + lit)] + more)[0] == LiteralString([c] + (text + lit));
    } else {
      OrdinaryCharacter(c, tail, dottedpath, false);
    }
  }

  lemma OneAndTwo()
    ensures Value("1") == 1 && Value("2") == 2
  {
    assert "1"[..0] == "2"[..0] == "";
  }

  lemma RangeOneToTwo(rest: string)
    requires rest == "" || !IsDigit(rest[0])
    ensures Run("1..2" + rest) == 1 && ("1..2" + rest)[1..][2..] == "2" + rest
    ensures Run("2" + rest) == 1 && ("2" + rest)[1..] == rest
    ensures Atol("1..2" + rest) == 1 && Atol("2" + rest) == 2
  {
    OneAndTwo();
    RunOfDigits("1", "..2" + rest);
    RunOfDigits("2", rest);
    assert "1..2" + rest == "1" + ("..2" + rest);
  }

  lemma LiteralOneToTwo()
    ensures LiteralAt("1..2]") == Some(("1..2]", ""))
    ensures LiteralAt("]") == Some(("]", ""))
  {
    var t := "]";
    assert t[1..] == "" && LiteralAt("") == Some(("", ""));
    assert [t[0]] + "" == t;
    assert LiteralAt(t) == Some((t, ""));
    PlainText("1..2", "]");
    assert "1..2" + "]" == "1..2]";
  }

  lemma RangeInBrackets()
    ensures NumRangeAt("[1..2]", ']') == Some((1, 2, "]"))
  {
    var t := "[1..2]";
    RangeOneToTwo("]");
    assert t[1..] == "1..2" + "]";
  }

  lemma ClosingBracket(dottedpath: bool)
    ensures Tokens("]", dottedpath, false) == Some([LiteralString("]")])
  {
    LiteralOneToTwo();
    LiteralStart("]", dottedpath, false);
  }

  // The range is not hidden here: "\[1..2]" describes "[1]" and not the text "[1..2]".
  lemma BackslashedRangeIsARange(dottedpath: bool)
    ensures Tokens("\\" + "[1..2]", dottedpath, false).Some?
    ensures var es := Tokens("\\" + "[1..2]", dottedpath, false).value; Describes(es, "[1]") && !Describes(es, "[1..2]")
  {
    RangeInBrackets();
    ClosingBracket(dottedpath);
    RangeInSpite("[1..2]", dottedpath, false, [LiteralString("]")]);
    ReadsOneInBrackets();
    MissesRangeText();
  }

  lemma MissesRangeText()
    ensures !Describes([LiteralString("[")] + ([NumRange(1, 2)] + [LiteralString("]")]), "[1..2]")
  {
    var tail, text := "1..2]", "1..2";
    RangeOneToTwo("]");
    assert text + "]" == tail && tail[..4] == text;
    DescribesOneLiteral(tail);
    assert [LiteralString(text + "]")] + [] == [LiteralString(tail)];
    assert ['['] + tail == "[1..2]" && [LiteralString("]")] + [] == [LiteralString("]")];
    RangeMissesItsText(1, 2, tail, text, "]", [], tail);
  }

  lemma DescribesOneLiteral(lit: string)
    ensures Describes([LiteralString(lit)], lit)
  {
    DescribesIsReaches([LiteralString(lit)], lit);
    OneLiteral(lit, lit);
  }

  lemma ReadsOneInBrackets()
    ensures Describes([LiteralString("[")] + ([NumRange(1, 2)] + [LiteralString("]")]), "[1]")
  {
    var es := [LiteralString("[")] + ([NumRange(1, 2)] + [LiteralString("]")]);
    var pieces := ["[", "1", "]"];
    assert Value("1") == 1 by {
      assert "1"[..0] == "";
    }
    assert pieces[1..] == ["1", "]"] && pieces[1..][1..] == ["]"] == pieces[2..] && pieces[3..] == [];
    assert Concat(["]"]) == "]" && Concat(["1", "]"]) == "1]";
    assert Fits(es, pieces, "");
  }
}
