/**
 Splitting a PowerShell command chain (orchestrator_harness/codex_bounded_policy.py).

 The scanner is proved against a character automaton; the automaton in turn is proved
 against a grammar of whole lexical units, and the resulting split against two laws:
 splitting a segment again changes nothing, and segments joined by " ; " split back.
 */
module CommandSegments {
  import opened Common
  import opened Strings

  /******* The automaton *******/

  datatype Mode =
    | Plain
    | Single
    | Double
    | Escaped
    | DoubleEscaped
    | EscapedNewline  // at the line feed of an escaped CR LF
    | SeparatorTail   // at the second character of || or &&

  datatype Role = Kept | Starts | Continues

  function Look(s: string, k: nat): Option<char> {
    if k < |s| then Some(s[k]) else None
  }

  function After(m: Mode, c: char, next: Option<char>): Mode {
    match m
    case Plain =>
      if c == '`' && next.Some? then Escaped
      else if c == '\'' then Single
      else if c == '"' then Double
      else if c in {'|', '&'} && next == Some(c) then SeparatorTail
      else Plain
    case Single => if c == '\'' then Plain else Single
    case Double => if c == '`' && next.Some? then DoubleEscaped else if c == '"' then Plain else Double
    case Escaped => if c == '\r' && next == Some('\n') then EscapedNewline else Plain
    case DoubleEscaped => Double
    case EscapedNewline => Plain
    case SeparatorTail => Plain
  }

  // The mode in which character k is met.
  ghost function ModeAt(s: string, k: nat): Mode
    requires k <= |s|
  {
    if k == 0 then Plain else After(ModeAt(s, k - 1), s[k - 1], Look(s, k))
  }

  ghost function RoleAt(s: string, k: nat): Role
    requires k < |s|
  {
    match ModeAt(s, k)
    case Plain =>
      if s[k] in {';', '|', '\r', '\n'} || (s[k] == '&' && Look(s, k + 1) == Some('&')) then Starts else Kept
    case SeparatorTail => Continues
    case _ => Kept
  }

  /******* Raw segments and separators *******/

  datatype Layout = Layout(raws: seq<string>, separators: seq<string>)

  ghost function Init<T>(s: seq<T>): (r: seq<T>)
    requires |s| > 0
  {
    s[..|s| - 1]
  }

  ghost function Last<T>(s: seq<T>): T
    requires |s| > 0
  {
    s[|s| - 1]
  }

  // What the first k characters of s fall into.
  ghost function LayoutAt(s: string, k: nat): (l: Layout)
    requires k <= |s|
    ensures |l.raws| == |l.separators| + 1
  {
    if k == 0 then Layout([""], [])
    else
      var l := LayoutAt(s, k - 1);
      var c := s[k - 1];
      match RoleAt(s, k - 1)
      case Kept => Layout(Init(l.raws) + [Last(l.raws) + [c]], l.separators)
      case Starts => Layout(l.raws + [""], l.separators + [[c]])
      case Continues => Layout(l.raws, if l.separators == [] then [] else Init(l.separators) + [Last(l.separators) + [c]])
  }

  // One character's step of the raw segments.
  ghost function NextRaws(raws: seq<string>, role: Role, c: char): seq<string>
    requires raws != []
  {
    match role
    case Kept => Init(raws) + [Last(raws) + [c]]
    case Starts => raws + [""]
    case Continues => raws
  }

  lemma RawsStep(s: string, k: nat)
    requires k < |s|
    ensures LayoutAt(s, k + 1).raws == NextRaws(LayoutAt(s, k).raws, RoleAt(s, k), s[k])
    ensures ModeAt(s, k) == SeparatorTail ==> Last(LayoutAt(s, k).raws) == ""
  {
  }

  // Raw segments and separators in turn.
  ghost function Interleaved(l: Layout): string
    requires |l.raws| == |l.separators| + 1
    decreases |l.raws|
  {
    if l.separators == [] then l.raws[0]
    else Interleaved(Layout(Init(l.raws), Init(l.separators))) + Last(l.separators) + Last(l.raws)
  }

  ghost function NextSeparators(separators: seq<string>, role: Role, c: char): seq<string>
    requires role == Continues ==> separators != []
  {
    match role
    case Kept => separators
    case Starts => separators + [[c]]
    case Continues => Init(separators) + [Last(separators) + [c]]
  }

  lemma SeparatorsStep(s: string, k: nat)
    requires k < |s|
    ensures RoleAt(s, k) == Continues ==> LayoutAt(s, k).separators != [] && Last(LayoutAt(s, k).raws) == ""
    ensures LayoutAt(s, k + 1).separators == NextSeparators(LayoutAt(s, k).separators, RoleAt(s, k), s[k])
  {
  }

  lemma InterleavedEnds(l: Layout, raws: seq<string>, raw: string, separators: seq<string>, separator: string)
    requires l.raws == raws + [raw] && l.separators == separators + [separator] && |raws| == |l.separators|
    ensures Interleaved(l) == Interleaved(Layout(raws, separators)) + separator + raw
  {
    assert Init(l.raws) == raws && Init(l.separators) == separators;
  }

  lemma InterleavedKeeps(l: Layout, c: char)
    requires |l.raws| == |l.separators| + 1
    ensures Interleaved(Layout(Init(l.raws) + [Last(l.raws) + [c]], l.separators)) == Interleaved(l) + [c]
  {
    hide Interleaved;
    var raw := Last(l.raws);
    var next := Layout(Init(l.raws) + [raw + [c]], l.separators);
    if l.separators == [] {
      SingleRaw(l);
      SingleRaw(next);
    } else {
      var separators, separator := Init(l.separators), Last(l.separators);
      InterleavedEnds(l, Init(l.raws), raw, separators, separator);
      InterleavedEnds(next, Init(l.raws), raw + [c], separators, separator);
      var rest := Interleaved(Layout(Init(l.raws), separators));
      assert rest + separator + (raw + [c]) == rest + separator + raw + [c];
    }
  }

  lemma InterleavedContinues(l: Layout, c: char)
    requires |l.raws| == |l.separators| + 1 && l.separators != [] && Last(l.raws) == ""
    ensures Interleaved(Layout(l.raws, Init(l.separators) + [Last(l.separators) + [c]])) == Interleaved(l) + [c]
  {
    hide Interleaved;
    var separators, separator := Init(l.separators), Last(l.separators);
    var next := Layout(l.raws, separators + [separator + [c]]);
    InterleavedEnds(l, Init(l.raws), "", separators, separator);
    InterleavedEnds(next, Init(l.raws), "", separators, separator + [c]);
    var rest := Interleaved(Layout(Init(l.raws), separators));
    assert rest + (separator + [c]) + "" == rest + separator + "" + [c];
  }

  lemma InterleavedStep(l: Layout, role: Role, c: char)
    requires |l.raws| == |l.separators| + 1
    requires role == Continues ==> l.separators != [] && Last(l.raws) == ""
    ensures Interleaved(Layout(NextRaws(l.raws, role, c), NextSeparators(l.separators, role, c))) == Interleaved(l) + [c]
  {
    hide Interleaved;
    match role
    case Kept => InterleavedKeeps(l, c);
    case Starts => InterleavedEnds(Layout(l.raws + [""], l.separators + [[c]]), l.raws, "", l.separators, [c]);
    case Continues => InterleavedContinues(l, c);
  }

  lemma SingleRaw(l: Layout)
    requires |l.raws| == 1 && l.separators == []
    ensures Interleaved(l) == l.raws[0]
  {
  }

  // Nothing is lost, added or moved.
  lemma {:induction false} LayoutIsWhole(s: string, k: nat)
    requires k <= |s|
    ensures Interleaved(LayoutAt(s, k)) == s[..k]
  {
    hide Interleaved, NextRaws, NextSeparators, ModeAt, RoleAt, LayoutAt;
    if k == 0 {
      NothingIsLaidOut(s);
    } else {
      LayoutIsWhole(s, k - 1);
      RawsStep(s, k - 1);
      SeparatorsStep(s, k - 1);
      InterleavedStep(LayoutAt(s, k - 1), RoleAt(s, k - 1), s[k - 1]);
      assert LayoutAt(s, k) == Layout(LayoutAt(s, k).raws, LayoutAt(s, k).separators);
      assert s[..k] == s[..k - 1] + [s[k - 1]];
    }
  }

  lemma NothingIsLaidOut(s: string)
    ensures Interleaved(LayoutAt(s, 0)) == s[..0]
  {
  }

  // What may come to stand in a mode that awaits a given character.
  lemma AwaitedCharacter(s: string, k: nat)
    requires k <= |s|
    ensures ModeAt(s, k) == SeparatorTail ==> 0 < k < |s| && s[k] == s[k - 1] && s[k] in {'|', '&'} && ModeAt(s, k - 1) == Plain
    ensures ModeAt(s, k) == EscapedNewline ==> 0 < k < |s| && s[k] == '\n' && s[k - 1] == '\r'
    ensures ModeAt(s, k) == Escaped ==> 0 < k < |s| && s[k - 1] == '`'
    ensures ModeAt(s, k) == DoubleEscaped ==> 0 < k < |s| && s[k - 1] == '`'
  {
  }

  const SEPARATORS := {";", "|", "||", "&&", "\r", "\n"}

  // Every separator is one of the six, but for a last one that awaits its second character.
  ghost predicate Six(q: seq<string>, awaited: Option<char>) {
    && (forall i | 0 <= i < |q| - 1 :: q[i] in SEPARATORS)
    && match awaited
       case None => q != [] ==> Last(q) in SEPARATORS
       case Some(c) => q != [] && Last(q) == [c]
  }

  lemma SixStarts(q: seq<string>, c: char, awaited: Option<char>)
    requires Six(q, None) && if awaited.Some? then awaited == Some(c) else [c] in SEPARATORS
    ensures Six(q + [[c]], awaited)
  {
  }

  lemma SixContinues(q: seq<string>, c: char)
    requires Six(q, Some(c)) && c in {'|', '&'}
    ensures Six(Init(q) + [Last(q) + [c]], None)
  {
    assert [c] + [c] == if c == '|' then "||" else "&&";
  }

  ghost predicate SixSoFar(s: string, k: nat)
    requires k <= |s|
  {
    Six(LayoutAt(s, k).separators, if ModeAt(s, k) == SeparatorTail then Look(s, k) else None)
  }

  lemma SixGrows(s: string, k: nat)
    requires k < |s| && SixSoFar(s, k)
    ensures SixSoFar(s, k + 1)
  {
    hide LayoutAt, ModeAt, Six;
    AwaitedCharacter(s, k);
    AwaitedCharacter(s, k + 1);
    SeparatorsStep(s, k);
    StepOfMode(s, k);
    var q, c := LayoutAt(s, k).separators, s[k];
    match RoleAt(s, k)
    case Kept =>
    case Starts =>
      SixStarts(q, c, if ModeAt(s, k + 1) == SeparatorTail then Look(s, k + 1) else None);
    case Continues =>
      SixContinues(q, c);
  }

  lemma StepOfMode(s: string, k: nat)
    requires k < |s|
    ensures ModeAt(s, k + 1) == After(ModeAt(s, k), s[k], Look(s, k + 1))
  {
  }

  lemma NoneSoFar(s: string)
    ensures SixSoFar(s, 0)
  {
  }

  // Every separator is one of the six.
  lemma {:induction false} SeparatorsAreSix(s: string, k: nat)
    requires k <= |s|
    ensures SixSoFar(s, k)
  {
    hide SixSoFar, LayoutAt, ModeAt, Six;
    if k == 0 {
      NoneSoFar(s);
    } else {
      SeparatorsAreSix(s, k - 1);
      SixGrows(s, k - 1);
    }
  }

  // So every separator of a whole command is.
  lemma EverySeparatorIsOne(s: string)
    ensures forall q | q in LayoutAt(s, |s|).separators :: q in SEPARATORS
  {
    hide LayoutAt, ModeAt;
    SeparatorsAreSix(s, |s|);
    AwaitedCharacter(s, |s|);
    SixMeans(LayoutAt(s, |s|).separators);
  }

  lemma SixMeans(q: seq<string>)
    requires Six(q, None)
    ensures forall separator | separator in q :: separator in SEPARATORS
  {
  }

  /******* Whole lexical units *******/

  // The inside of a double-quoted string.
  ghost predicate DoubleBody(b: string) {
    b == ""
    || (b[0] == '`' && |b| >= 2 && DoubleBody(b[2..]))
    || (b[0] !in {'`', '"'} && DoubleBody(b[1..]))
  }

  // One bare character, one escape pair, or one closed string.
  ghost predicate Unit(u: string) {
    || (|u| == 1 && u[0] !in {'`', '\'', '"'})
    || (|u| == 2 && u[0] == '`')
    || (|u| >= 2 && u[0] == '\'' && u[|u| - 1] == '\'' && '\'' !in u[1..|u| - 1])
    || (|u| >= 2 && u[0] == '"' && u[|u| - 1] == '"' && DoubleBody(u[1..|u| - 1]))
  }

  ghost function Text(units: seq<string>): string {
    if units == [] then "" else Text(Init(units)) + Last(units)
  }

  // The text consists of whole units: it ends outside quotes and escapes.
  ghost predicate Whole(text: string) {
    exists units :: Text(units) == text && forall u | u in units :: Unit(u)
  }

  ghost predicate Outside(m: Mode) {
    m in {Plain, EscapedNewline, SeparatorTail}
  }

  lemma WholeExtends(text: string, u: string)
    requires Whole(text) && Unit(u)
    ensures Whole(text + u)
  {
    var units :| Text(units) == text && forall v | v in units :: Unit(v);
    assert Init(units + [u]) == units;
    assert Text(units + [u]) == text + u;
  }

  lemma {:induction false} DoubleBodyGrows(b: string, tail: string)
    requires DoubleBody(b)
    requires (|tail| == 1 && tail[0] !in {'`', '"'}) || (|tail| == 2 && tail[0] == '`')
    ensures DoubleBody(b + tail)
    decreases |b|
  {
    if b == "" {
      assert b + tail == tail && (|tail| == 2 ==> tail[2..] == "") && (|tail| == 1 ==> tail[1..] == "");
    } else if b[0] == '`' {
      DoubleBodyGrows(b[2..], tail);
      assert (b + tail)[2..] == b[2..] + tail;
    } else {
      DoubleBodyGrows(b[1..], tail);
      assert (b + tail)[1..] == b[1..] + tail;
    }
  }

  // Where the unit that character k interrupts began.
  ghost predicate OpenSince(s: string, k: nat, o: nat)
    requires k <= |s|
  {
    && o < k && Whole(s[..o])
    && match ModeAt(s, k)
       case Single => s[o] == '\'' && '\'' !in s[o + 1..k]
       case Double => s[o] == '"' && DoubleBody(s[o + 1..k])
       case DoubleEscaped => s[o] == '"' && o + 1 < k && DoubleBody(s[o + 1..k - 1]) && s[k - 1] == '`'
       case Escaped => o == k - 1 && s[o] == '`'
       case _ => false
  }

  // A command without its last character's ambiguity: only a final backtick stands for itself.
  lemma {:induction false} ModesFollowUnits(s: string, k: nat)
    requires k < |s|
    ensures Outside(ModeAt(s, k)) ==> Whole(s[..k])
    ensures !Outside(ModeAt(s, k)) ==> exists o :: OpenSince(s, k, o)
  {
    if k == 0 {
      assert Text([]) == s[..0];
    } else {
      ModesFollowUnits(s, k - 1);
      AwaitedCharacter(s, k - 1);
      var c, m := s[k - 1], ModeAt(s, k);
      assert s[..k] == s[..k - 1] + [c];
      if Outside(ModeAt(s, k - 1)) {
        if Outside(m) {
          WholeExtends(s[..k - 1], [c]);
        } else {
          assert s[k..k] == "";
          assert OpenSince(s, k, k - 1);
        }
      } else {
        var o :| OpenSince(s, k - 1, o);
        if Outside(m) {
          UnitCloses(s, k, o);
        } else {
          UnitStaysOpen(s, k, o);
        }
      }
    }
  }

  lemma UnitCloses(s: string, k: nat, o: nat)
    requires 0 < k < |s| && OpenSince(s, k - 1, o) && Outside(ModeAt(s, k))
    ensures Whole(s[..k])
  {
    hide Whole, Text;
    var u := s[o..k];
    assert Unit(u) by {
      hide Whole, Text, Look;
      SliceOfSlice(s, o, k - o, 1, k - o - 1);
      assert |u| >= 2 && u[0] == s[o] && u[|u| - 1] == s[k - 1];
      assert ModeAt(s, k) == After(ModeAt(s, k - 1), s[k - 1], Look(s, k));
    }
    assert s[..k] == s[..o] + u;
    WholeExtends(s[..o], u);
  }

  lemma UnitStaysOpen(s: string, k: nat, o: nat)
    requires 0 < k < |s| && OpenSince(s, k - 1, o) && !Outside(ModeAt(s, k))
    ensures OpenSince(s, k, o)
  {
    var before := ModeAt(s, k - 1);
    assert before.Single? || before.Double? ==> s[o + 1..k] == s[o + 1..k - 1] + [s[k - 1]];
    if before.Double? && ModeAt(s, k).Double? {
      DoubleBodyGrows(s[o + 1..k - 1], [s[k - 1]]);
    } else if before.DoubleEscaped? {
      var tail := s[k - 2..k];
      DoubleBodyGrows(s[o + 1..k - 2], tail);
      assert s[o + 1..k] == s[o + 1..k - 2] + tail;
    }
  }

  // Once inside a string's body, still inside after it.
  lemma {:induction false} BodyStaysInside(s: string, k: nat, n: nat)
    requires k + n < |s| && ModeAt(s, k) == Double && DoubleBody(s[k..k + n])
    ensures ModeAt(s, k + n) == Double
    decreases n
  {
    if n > 0 {
      var b := s[k..k + n];
      assert ModeAt(s, k + 1) == After(Double, s[k], Look(s, k + 1));
      if b[0] == '`' {
        assert ModeAt(s, k + 2) == Double;
        assert b[2..] == s[k + 2..k + n];
        BodyStaysInside(s, k + 2, n - 2);
      } else {
        assert b[1..] == s[k + 1..k + n];
        BodyStaysInside(s, k + 1, n - 1);
      }
    }
  }

  lemma {:induction false} QuoteStaysInside(s: string, k: nat, n: nat)
    requires k + n < |s| && ModeAt(s, k) == Single && '\'' !in s[k..k + n]
    ensures ModeAt(s, k + n) == Single
  {
    if n > 0 {
      assert s[k..k + n][n - 1] == s[k + n - 1];
      assert s[k..k + n - 1] == s[k..k + n][..n - 1];
      QuoteStaysInside(s, k, n - 1);
    }
  }

  // A whole unit read from outside ends outside.
  lemma UnitEndsOutside(s: string, k: nat, u: string)
    requires k + |u| < |s| && s[k..k + |u|] == u && Unit(u) && Outside(ModeAt(s, k))
    ensures Outside(ModeAt(s, k + |u|))
  {
    AwaitedCharacter(s, k);
    var n := |u|;
    assert u[0] == s[k];
    var m := ModeAt(s, k);
    assert ModeAt(s, k + 1) == After(m, s[k], Look(s, k + 1));
    if u[0] == '`' {
      assert ModeAt(s, k + 2) == After(Escaped, s[k + 1], Look(s, k + 2));
    } else if u[0] == '\'' {
      SliceOfSlice(s, k, n, 1, n - 1);
      QuoteStaysInside(s, k + 1, n - 2);
      assert s[k + n - 1] == u[n - 1];
    } else if u[0] == '"' {
      SliceOfSlice(s, k, n, 1, n - 1);
      BodyStaysInside(s, k + 1, n - 2);
      assert s[k + n - 1] == u[n - 1];
    }
  }

  lemma PrefixParts(s: string, a: string, b: string)
    requires a + b <= s
    ensures a <= s && |a| + |b| <= |s| && s[|a|..|a| + |b|] == b
  {
    assert a == (a + b)[..|a|] == s[..|a|];
    assert s[|a|..|a| + |b|] == (a + b)[|a|..];
  }

  lemma {:induction false} UnitsEndOutside(s: string, units: seq<string>)
    requires forall u | u in units :: Unit(u)
    requires Text(units) <= s && |Text(units)| < |s|
    ensures Outside(ModeAt(s, |Text(units)|))
    decreases |units|
  {
    hide Unit, RoleAt;
    if units != [] {
      var before, last := Text(Init(units)), Last(units);
      assert last in units;
      assert Text(units) == before + last;
      PrefixParts(s, before, last);
      UnitsEndOutside(s, Init(units));
      UnitEndsOutside(s, |before|, last);
    }
  }

  // A character is met outside quotes and escapes exactly when whole units precede it.
  lemma OutsideExactly(s: string, k: nat)
    requires k < |s|
    ensures Outside(ModeAt(s, k)) <==> Whole(s[..k])
  {
    ModesFollowUnits(s, k);
    if Whole(s[..k]) {
      var units :| Text(units) == s[..k] && forall u | u in units :: Unit(u);
      UnitsEndOutside(s, units);
    }
  }

  // So every separator starts after whole units, and one never starts inside a unit.
  lemma SeparatorsStandOutside(s: string, k: nat)
    requires k < |s| && RoleAt(s, k) != Kept
    ensures Whole(s[..k])
  {
    OutsideExactly(s, k);
  }

  /******* Which characters separate *******/

  // The line feed of an escaped CR LF.
  ghost predicate EscapedBreak(s: string, k: nat)
    requires k < |s|
  {
    k >= 2 && s[k] == '\n' && s[k - 1] == '\r' && s[k - 2] == '`' && Whole(s[..k - 2])
  }

  // Behind whole units: a semicolon, a pipe, a line break that is not escaped, or a double ampersand.
  ghost predicate Separates(s: string, k: nat)
    requires k < |s|
  {
    && Whole(s[..k])
    && (s[k] == ';' || s[k] == '|' || s[k] == '\r' || (s[k] == '\n' && !EscapedBreak(s, k)) || "&&" <= s[k..])
  }

  lemma EscapedBreakExactly(s: string, k: nat)
    requires k < |s|
    ensures EscapedBreak(s, k) <==> ModeAt(s, k) == EscapedNewline
  {
    hide Whole, RoleAt;
    AwaitedCharacter(s, k);
    if EscapedBreak(s, k) {
      OutsideExactly(s, k - 2);
      AwaitedCharacter(s, k - 2);
      StepOfMode(s, k - 2);
      StepOfMode(s, k - 1);
    }
    if ModeAt(s, k) == EscapedNewline {
      StepOfMode(s, k - 1);
      AwaitedCharacter(s, k - 1);
      StepOfMode(s, k - 2);
      OutsideExactly(s, k - 2);
    }
  }

  // Where no separator awaits its second character, a character starts one exactly if it separates.
  lemma StartsExactly(s: string, k: nat)
    requires k < |s| && ModeAt(s, k) != SeparatorTail
    ensures RoleAt(s, k) == if Separates(s, k) then Starts else Kept
    ensures Separates(s, k) ==> ModeAt(s, k) == Plain
    ensures !Separates(s, k) ==> ModeAt(s, k + 1) != SeparatorTail
  {
    hide Whole, EscapedBreak;
    OutsideExactly(s, k);
    EscapedBreakExactly(s, k);
    AwaitedCharacter(s, k);
    StepOfMode(s, k);
    assert "&&" <= s[k..] <==> s[k] == '&' && Look(s, k + 1) == Some('&');
  }

  /******* Segments *******/

  // The stripped raw segments, without the empty ones.
  ghost function NonBlank(raws: seq<string>): seq<string> {
    if raws == [] then []
    else NonBlank(Init(raws)) + (if Strip(Last(raws)) == "" then [] else [Strip(Last(raws))])
  }

  ghost function Segments(s: string): seq<string> {
    NonBlank(LayoutAt(s, |s|).raws)
  }

  // The scanner's quote and the automaton's mode at the head of its loop.
  ghost predicate QuoteMatches(quote: Option<char>, m: Mode) {
    match m
    case Plain => quote.None?
    case Single => quote == Some('\'')
    case Double => quote == Some('"')
    case _ => false
  }

  // Where the scanner stands after the first index characters.
  ghost predicate Scanned(command: string, index: nat, quote: Option<char>, current: string, parts: seq<string>) {
    && index <= |command|
    && QuoteMatches(quote, ModeAt(command, index))
    && var raws := LayoutAt(command, index).raws;
      current == Last(raws) && parts == NonBlank(Init(raws))
  }

  lemma {:induction false} KeepsRun(s: string, k: nat, n: nat)
    requires k + n <= |s| && forall j | k <= j < k + n :: RoleAt(s, j) == Kept
    ensures var before, after := LayoutAt(s, k).raws, LayoutAt(s, k + n).raws;
            Last(after) == Last(before) + s[k..k + n] && Init(after) == Init(before)
  {
    hide LayoutAt, ModeAt, RoleAt;
    if n > 0 {
      KeepsRun(s, k, n - 1);
      RawsStep(s, k + (n - 1));
      assert s[k..k + n] == s[k..k + n - 1] + [s[k + n - 1]];
    }
  }

  // The scanner takes n characters into the current segment.
  lemma Takes(s: string, k: nat, n: nat, quote: Option<char>, after: Option<char>, current: string, parts: seq<string>)
    requires Scanned(s, k, quote, current, parts)
    requires k + n <= |s| && (forall j | k <= j < k + n :: RoleAt(s, j) == Kept) && QuoteMatches(after, ModeAt(s, k + n))
    ensures Scanned(s, k + n, after, current + s[k..k + n], parts)
  {
    KeepsRun(s, k, n);
  }

  // The scanner cuts at a separator of n characters.
  lemma Cuts(s: string, k: nat, n: nat, current: string, parts: seq<string>)
    requires Scanned(s, k, None, current, parts)
    requires 0 < n <= 2 && k + n <= |s| && RoleAt(s, k) == Starts
    requires (n == 2) == (ModeAt(s, k + 1) == SeparatorTail)
    requires QuoteMatches(None, ModeAt(s, k + n))
    ensures Scanned(s, k + n, None, "", if Strip(current) == "" then parts else parts + [Strip(current)])
  {
    hide LayoutAt, ModeAt, Strip;
    var before := LayoutAt(s, k).raws;
    RawsStep(s, k);
    if n == 2 {
      assert RoleAt(s, k + 1) == Continues;
      RawsStep(s, k + 1);
    }
    assert LayoutAt(s, k + n).raws == before + [""];
    assert Init(before + [""]) == before == Init(before) + [current];
    assert Init(before) == Init(before + [""])[..|before| - 1];
  }

  /******* The only division *******/

  // A division of a text, or of its beginning, into raw segments and separators: what is cut out is one
  // of the six where a character separates, and no half of a double pipe; what is left does not separate.
  ghost predicate Divides(s: string, l: Layout)
    requires |l.raws| == |l.separators| + 1
    decreases |l.raws|
  {
    && Interleaved(l) <= s
    && if l.separators == [] then NoneSeparates(s, 0, |l.raws[0]|)
       else
         var front, q := Layout(Init(l.raws), Init(l.separators)), Last(l.separators);
         var cut := |Interleaved(front)|;
         && Divides(s, front)
         && (q == ";" || q == "|" || q == "||" || q == "&&" || q == "\r" || q == "\n")
         && cut < |s| && Separates(s, cut) && (q == "|" ==> !("||" <= s[cut..]))
         && NoneSeparates(s, cut + |q|, |Last(l.raws)|)
  }

  ghost predicate NoneSeparates(s: string, from: nat, n: nat) {
    from + n <= |s| && forall k | from <= k < from + n :: !Separates(s, k)
  }

  // Where nothing separates, everything is kept.
  lemma {:induction false} KeepsOn(s: string, from: nat, n: nat)
    requires NoneSeparates(s, from, n) && ModeAt(s, from) != SeparatorTail
    ensures ModeAt(s, from + n) != SeparatorTail
    ensures var before := LayoutAt(s, from);
            LayoutAt(s, from + n) == Layout(Init(before.raws) + [Last(before.raws) + s[from..from + n]], before.separators)
  {
    hide LayoutAt, ModeAt, RoleAt, Separates;
    var before := LayoutAt(s, from);
    if n == 0 {
      assert Last(before.raws) + s[from..from] == Last(before.raws);
      assert before == Layout(Init(before.raws) + [Last(before.raws)], before.separators);
    } else {
      KeepsOn(s, from, n - 1);
      StartsExactly(s, from + n - 1);
      RawsStep(s, from + n - 1);
      SeparatorsStep(s, from + n - 1);
      var last := LayoutAt(s, from + n - 1);
      assert Init(last.raws) == Init(before.raws);
      assert s[from..from + n] == s[from..from + n - 1] + [s[from + n - 1]];
      assert Last(before.raws) + s[from..from + n - 1] + [s[from + n - 1]] == Last(before.raws) + s[from..from + n];
    }
  }

  // A separator cuts, in one step or in two.
  lemma CutsThere(s: string, k: nat, q: string)
    requires k < |s| && ModeAt(s, k) != SeparatorTail && Separates(s, k) && q <= s[k..]
    requires q in SEPARATORS && (q == "|" ==> !("||" <= s[k..]))
    ensures k + |q| <= |s| && ModeAt(s, k + |q|) != SeparatorTail
    ensures LayoutAt(s, k + |q|) == Layout(LayoutAt(s, k).raws + [""], LayoutAt(s, k).separators + [q])
  {
    hide LayoutAt, Whole;
    StartsExactly(s, k);
    RawsStep(s, k);
    SeparatorsStep(s, k);
    StepOfMode(s, k);
    assert q[0] == s[k];
    if |q| == 2 {
      assert q[1] == s[k..][1] == s[k + 1];
      RawsStep(s, k + 1);
      SeparatorsStep(s, k + 1);
      StepOfMode(s, k + 1);
      var separators := LayoutAt(s, k).separators;
      assert Init(separators + [[s[k]]]) == separators && [s[k]] + [s[k + 1]] == q;
    } else {
      assert "||" <= s[k..] <==> s[k] == '|' && Look(s, k + 1) == Some('|');
      assert [s[k]] == q;
    }
  }

  // Any division is that of the automaton.
  lemma {:induction false} DividesIsLayout(s: string, l: Layout)
    requires |l.raws| == |l.separators| + 1 && Divides(s, l)
    ensures |Interleaved(l)| <= |s| && ModeAt(s, |Interleaved(l)|) != SeparatorTail && LayoutAt(s, |Interleaved(l)|) == l
    decreases |l.raws|
  {
    hide LayoutAt, Separates, ModeAt, NoneSeparates;
    if l.separators == [] {
      FirstMode(s);
      KeepsOn(s, 0, |l.raws[0]|);
      assert s[0..|l.raws[0]|] == l.raws[0] && "" + l.raws[0] == l.raws[0];
      assert Init([""]) + [l.raws[0]] == l.raws;
    } else {
      var front, q, raw := Layout(Init(l.raws), Init(l.separators)), Last(l.separators), Last(l.raws);
      DividesIsLayout(s, front);
      assert l.raws == front.raws + [raw] && l.separators == front.separators + [q];
      NextPieces(s, front, q, raw);
    }
  }

  // One more separator and raw segment.
  lemma NextPieces(s: string, front: Layout, q: string, raw: string)
    requires |front.raws| == |front.separators| + 1
    requires Interleaved(front) + q + raw <= s && q in SEPARATORS
    requires var cut := |Interleaved(front)|;
             && cut < |s| && Separates(s, cut) && (q == "|" ==> !("||" <= s[cut..])) && NoneSeparates(s, cut + |q|, |raw|)
             && ModeAt(s, cut) != SeparatorTail && LayoutAt(s, cut) == front
    ensures var l := Layout(front.raws + [raw], front.separators + [q]);
            |Interleaved(l)| <= |s| && ModeAt(s, |Interleaved(l)|) != SeparatorTail && LayoutAt(s, |Interleaved(l)|) == l
  {
    hide LayoutAt, Separates, ModeAt, Interleaved, NoneSeparates;
    var cut, l := |Interleaved(front)|, Layout(front.raws + [raw], front.separators + [q]);
    InterleavedEnds(l, front.raws, raw, front.separators, q);
    PiecesStand(s, Interleaved(front), q, raw);
    CutsThere(s, cut, q);
    KeepsOn(s, cut + |q|, |raw|);
    assert Init(front.raws + [""]) == front.raws && "" + raw == raw;
  }

  lemma PiecesStand(s: string, a: string, q: string, raw: string)
    requires a + q + raw <= s
    ensures |a| + |q| + |raw| <= |s| && q <= s[|a|..] && s[|a| + |q|..|a| + |q| + |raw|] == raw
  {
    PrefixParts(s, a + q, raw);
    PrefixParts(s, a, q);
  }

  lemma FirstMode(s: string)
    ensures ModeAt(s, 0) == Plain && LayoutAt(s, 0) == Layout([""], [])
  {
  }

  // And the automaton's is a division.
  lemma {:induction false} EveryPrefixDivides(s: string, k: nat)
    requires k <= |s| && ModeAt(s, k) != SeparatorTail
    ensures Divides(s, LayoutAt(s, k))
  {
    hide LayoutAt, Separates, ModeAt, RoleAt, Divides;
    LayoutIsWhole(s, k);
    if k == 0 {
      FirstMode(s);
      NothingDivides(s);
    } else {
      AwaitedCharacter(s, k - 1);
      if ModeAt(s, k - 1) == SeparatorTail {
        EveryPrefixDivides(s, k - 2);
        TailDivides(s, k);
      } else {
        EveryPrefixDivides(s, k - 1);
        StepDivides(s, k);
      }
    }
  }

  lemma NothingDivides(s: string)
    ensures Divides(s, Layout([""], []))
  {
  }

  // One more character of the last raw segment.
  lemma DivisionKeeps(s: string, l: Layout, c: char)
    requires |l.raws| == |l.separators| + 1 && Divides(s, l)
    requires Interleaved(l) + [c] <= s && !Separates(s, |Interleaved(l)|)
    ensures Divides(s, Layout(Init(l.raws) + [Last(l.raws) + [c]], l.separators))
  {
    hide Separates;
    InterleavedKeeps(l, c);
    var next := Layout(Init(l.raws) + [Last(l.raws) + [c]], l.separators);
    assert Init(next.raws) == Init(l.raws);
    if l.separators != [] {
      assert |Interleaved(l)| == |Interleaved(Layout(Init(l.raws), Init(l.separators)))| + |Last(l.separators)| + |Last(l.raws)|;
    }
  }

  // One more separator.
  lemma DivisionCuts(s: string, l: Layout, q: string)
    requires |l.raws| == |l.separators| + 1 && Divides(s, l) && Interleaved(l) + q <= s && q in SEPARATORS
    requires |Interleaved(l)| < |s| && Separates(s, |Interleaved(l)|) && (q == "|" ==> !("||" <= s[|Interleaved(l)|..]))
    ensures Divides(s, Layout(l.raws + [""], l.separators + [q]))
  {
    hide Separates;
    var next := Layout(l.raws + [""], l.separators + [q]);
    InterleavedEnds(next, l.raws, "", l.separators, q);
    assert Interleaved(l) + q + "" == Interleaved(l) + q;
    assert Init(next.raws) == l.raws && Init(next.separators) == l.separators;
  }

  lemma StepDivides(s: string, k: nat)
    requires 0 < k <= |s| && ModeAt(s, k) != SeparatorTail && ModeAt(s, k - 1) != SeparatorTail
    requires Divides(s, LayoutAt(s, k - 1))
    ensures Divides(s, LayoutAt(s, k))
  {
    hide LayoutAt, Separates, Divides, Interleaved;
    var c := s[k - 1];
    LayoutIsWhole(s, k - 1);
    StartsExactly(s, k - 1);
    RawsStep(s, k - 1);
    SeparatorsStep(s, k - 1);
    StepOfMode(s, k - 1);
    assert s[..k - 1] + [c] == s[..k] <= s;
    if Separates(s, k - 1) {
      assert "||" <= s[k - 1..] ==> c == '|' && Look(s, k) == Some('|');
      SeparatorsHere(s, k - 1);
      DivisionCuts(s, LayoutAt(s, k - 1), [c]);
    } else {
      DivisionKeeps(s, LayoutAt(s, k - 1), c);
    }
  }

  // A character that separates alone is a separator.
  lemma SeparatorsHere(s: string, k: nat)
    requires k < |s| && Separates(s, k)
    ensures [s[k]] in SEPARATORS || "&&" <= s[k..]
    ensures "&&" <= s[k..] ==> s[k] == '&' && Look(s, k + 1) == Some('&')
  {
  }

  lemma TailDivides(s: string, k: nat)
    requires 1 < k <= |s| && ModeAt(s, k - 1) == SeparatorTail && Divides(s, LayoutAt(s, k - 2))
    ensures Divides(s, LayoutAt(s, k))
  {
    hide LayoutAt, Separates, Divides, Interleaved, Whole;
    AwaitedCharacter(s, k - 1);
    LayoutIsWhole(s, k - 2);
    StartsExactly(s, k - 2);
    var q := [s[k - 2]] + [s[k - 1]];
    assert s[k - 2..] == q + s[k..];
    assert s[..k - 2] + q == s[..k] <= s;
    assert q in SEPARATORS by { assert q == "||" || q == "&&"; }
    DoubleSeparates(s, k - 2);
    CutsThere(s, k - 2, q);
    DivisionCuts(s, LayoutAt(s, k - 2), q);
  }

  lemma DoubleSeparates(s: string, k: nat)
    requires k + 1 < |s| && ModeAt(s, k) == Plain && s[k] == s[k + 1] && s[k] in {'|', '&'}
    ensures Separates(s, k)
  {
    OutsideExactly(s, k);
  }

  ghost predicate IsDivision(s: string, l: Layout) {
    |l.raws| == |l.separators| + 1 && Divides(s, l) && Interleaved(l) == s
  }

  // A text has exactly one division, and the automaton finds it.
  lemma DividedExactly(s: string, l: Layout)
    ensures IsDivision(s, l) <==> l == LayoutAt(s, |s|)
  {
    hide Divides, Interleaved, LayoutAt, ModeAt;
    if IsDivision(s, l) {
      DividesIsLayout(s, l);
    }
    if l == LayoutAt(s, |s|) {
      AwaitedCharacter(s, |s|);
      EveryPrefixDivides(s, |s|);
      LayoutIsWhole(s, |s|);
      assert s[..|s|] == s;
    }
  }

  lemma SegmentsAreDivided(s: string)
    ensures exists l :: IsDivision(s, l) && Segments(s) == NonBlank(l.raws)
    ensures forall l | IsDivision(s, l) :: Segments(s) == NonBlank(l.raws)
  {
    hide IsDivision, LayoutAt, NonBlank;
    DividedExactly(s, LayoutAt(s, |s|));
    forall l | IsDivision(s, l)
      ensures Segments(s) == NonBlank(l.raws)
    {
      DividedExactly(s, l);
    }
  }

  // How far one turn of the scanner goes and what quote it leaves, when it cuts nothing.
  lemma TurnInQuote(s: string, k: nat, quote: char)
    requires k < |s| && QuoteMatches(Some(quote), ModeAt(s, k))
    ensures RoleAt(s, k) == Kept
    ensures quote == '"' && s[k] == '`' && k + 1 < |s| ==>
              RoleAt(s, k + 1) == Kept && QuoteMatches(Some(quote), ModeAt(s, k + 2))
    ensures !(quote == '"' && s[k] == '`' && k + 1 < |s|) ==>
              QuoteMatches(if s[k] == quote then None else Some(quote), ModeAt(s, k + 1))
  {
  }

  lemma TurnAtEscape(s: string, k: nat)
    requires k + 1 < |s| && ModeAt(s, k) == Plain && s[k] == '`'
    ensures RoleAt(s, k) == Kept && RoleAt(s, k + 1) == Kept
    ensures s[k + 1] == '\r' && k + 2 < |s| && s[k + 2] == '\n' ==>
              RoleAt(s, k + 2) == Kept && ModeAt(s, k + 3) == Plain
    ensures !(s[k + 1] == '\r' && k + 2 < |s| && s[k + 2] == '\n') ==> ModeAt(s, k + 2) == Plain
  {
    assert ModeAt(s, k + 1) == Escaped;
    assert ModeAt(s, k + 2) == After(Escaped, s[k + 1], Look(s, k + 2));
  }

  lemma TurnAtSeparator(s: string, k: nat)
    requires k < |s| && ModeAt(s, k) == Plain
    ensures RoleAt(s, k) == Starts ==>
              && (ModeAt(s, k + 1) == SeparatorTail <==> (k + 1 < |s| && s[k] in {'|', '&'} && s[k + 1] == s[k]))
              && (ModeAt(s, k + 1) == SeparatorTail ==> ModeAt(s, k + 2) == Plain)
              && (ModeAt(s, k + 1) != SeparatorTail ==> ModeAt(s, k + 1) == Plain)
  {
  }

  // One turn of the scanner, by what it meets.
  lemma ScansInQuote(s: string, k: nat, quote: char, current: string, parts: seq<string>)
    requires Scanned(s, k, Some(quote), current, parts) && k < |s|
    ensures if quote == '"' && s[k] == '`' && k + 1 < |s|
            then Scanned(s, k + 2, Some(quote), current + [s[k]] + [s[k + 1]], parts)
            else Scanned(s, k + 1, if s[k] == quote then None else Some(quote), current + [s[k]], parts)
  {
    hide LayoutAt, NonBlank, ModeAt, RoleAt;
    TurnInQuote(s, k, quote);
    if quote == '"' && s[k] == '`' && k + 1 < |s| {
      assert current + s[k..k + 2] == current + [s[k]] + [s[k + 1]];
      Takes(s, k, 2, Some(quote), Some(quote), current, parts);
    } else {
      assert current + s[k..k + 1] == current + [s[k]];
      Takes(s, k, 1, Some(quote), if s[k] == quote then None else Some(quote), current, parts);
    }
  }

  lemma ScansEscape(s: string, k: nat, current: string, parts: seq<string>)
    requires Scanned(s, k, None, current, parts) && k + 1 < |s| && s[k] == '`'
    ensures if s[k + 1] == '\r' && k + 2 < |s| && s[k + 2] == '\n'
            then Scanned(s, k + 3, None, current + [s[k]] + [s[k + 1]] + [s[k + 2]], parts)
            else Scanned(s, k + 2, None, current + [s[k]] + [s[k + 1]], parts)
  {
    hide LayoutAt, NonBlank, ModeAt, RoleAt;
    TurnAtEscape(s, k);
    if s[k + 1] == '\r' && k + 2 < |s| && s[k + 2] == '\n' {
      assert current + s[k..k + 3] == current + [s[k]] + [s[k + 1]] + [s[k + 2]];
      Takes(s, k, 3, None, None, current, parts);
    } else {
      assert current + s[k..k + 2] == current + [s[k]] + [s[k + 1]];
      Takes(s, k, 2, None, None, current, parts);
    }
  }

  // How many characters separate here, outside quotes and escapes.
  ghost function SeparatorLength(s: string, k: nat): nat
    requires k < |s|
  {
    if s[k] in {';', '|', '\r', '\n'} then (if s[k] == '|' && k + 1 < |s| && s[k + 1] == '|' then 2 else 1)
    else if s[k] == '&' && k + 1 < |s| && s[k + 1] == '&' then 2
    else 0
  }

  lemma ScansOther(s: string, k: nat, current: string, parts: seq<string>)
    requires Scanned(s, k, None, current, parts) && k < |s| && !(s[k] == '`' && k + 1 < |s|)
    ensures s[k] in {'\'', '"'} ==> Scanned(s, k + 1, Some(s[k]), current + [s[k]], parts)
    ensures s[k] !in {'\'', '"'} && SeparatorLength(s, k) == 0 ==> Scanned(s, k + 1, None, current + [s[k]], parts)
    ensures s[k] !in {'\'', '"'} && SeparatorLength(s, k) > 0 ==>
              Scanned(s, k + SeparatorLength(s, k), None, "", if Strip(current) == "" then parts else parts + [Strip(current)])
  {
    hide LayoutAt, NonBlank, Strip;
    var n := SeparatorLength(s, k);
    assert current + s[k..k + 1] == current + [s[k]];
    if s[k] in {'\'', '"'} {
      Takes(s, k, 1, None, Some(s[k]), current, parts);
    } else if n == 0 {
      Takes(s, k, 1, None, None, current, parts);
    } else {
      TurnAtSeparator(s, k);
      Cuts(s, k, n, current, parts);
    }
  }

  method CommandSegments(command: string) returns (parts: seq<string>)
    ensures parts == Segments(command)
    // these are the stripped nonempty pieces of the only division of the command
    ensures exists l :: IsDivision(command, l) && parts == NonBlank(l.raws)
    ensures forall l | IsDivision(command, l) :: parts == NonBlank(l.raws)
  {
    hide Scanned, Strip, Segments, IsDivision, LayoutAt;
    SegmentsAreDivided(command);
    parts := [];
    var current := "";
    var quote: Option<char> := None;
    var index := 0;
    ScanStarts(command);
    while index < |command|
      invariant index <= |command| && Scanned(command, index, quote, current, parts)
      decreases |command| - index
    {
      var character := command[index];
      if quote.Some? {
        ScansInQuote(command, index, quote.value, current, parts);
        current := current + [character];
        if quote == Some('"') && character == '`' && index + 1 < |command| {
          index := index + 1;
          current := current + [command[index]];
        } else if character == quote.value {
          quote := None;
        }
        index := index + 1;
        continue;
      }
      if character == '`' && index + 1 < |command| {
        ScansEscape(command, index, current, parts);
        current := current + [character];
        index := index + 1;
        current := current + [command[index]];
        if command[index] == '\r' && index + 1 < |command| && command[index + 1] == '\n' {
          index := index + 1;
          current := current + [command[index]];
        }
        index := index + 1;
        continue;
      }
      ScansOther(command, index, current, parts);
      if character in {'\'', '"'} {
        quote := Some(character);
        current := current + [character];
        index := index + 1;
        continue;
      }
      var separatorLength := 0;
      if character in {';', '|', '\r', '\n'} {
        separatorLength := if character == '|' && index + 1 < |command| && command[index + 1] == '|' then 2 else 1;
      } else if character == '&' && index + 1 < |command| && command[index + 1] == '&' {
        separatorLength := 2;
      }
      if separatorLength > 0 {
        var part := Strip(current);
        if part != "" {
          parts := parts + [part];
        }
        current := "";
        index := index + separatorLength;
        continue;
      }
      current := current + [character];
      index := index + 1;
    }
    ScanEnds(command, quote, current, parts);
    var part := Strip(current);
    if part != "" {
      parts := parts + [part];
    }
  }

  lemma ScanStarts(s: string)
    ensures Scanned(s, 0, None, "", [])
  {
  }

  lemma ScanEnds(s: string, quote: Option<char>, current: string, parts: seq<string>)
    requires Scanned(s, |s|, quote, current, parts)
    ensures Segments(s) == if Strip(current) == "" then parts else parts + [Strip(current)]
  {
  }

  /******* Splitting again *******/

  // Read on its own, nothing in t separates.
  ghost predicate AllKept(t: string) {
    forall k | 0 <= k < |t| :: RoleAt(t, k) == Kept
  }

  // A segment as it may come last: stripped, and nothing in it separates.
  ghost predicate Solid(t: string) {
    t != "" && Trimmed(t) && AllKept(t)
  }

  // A segment as it may come before others: a blank and a separator after it end it.
  ghost predicate Closed(t: string) {
    && Solid(t)
    && ModeAt(t + " ", |t|) in {Plain, Escaped}
    && RoleAt(t + " ", |t|) == Kept && ModeAt(t + " ", |t| + 1) == Plain
  }

  // Two texts that agree from where the second is met outside are read alike.
  lemma {:induction false} ReadAlike(t: string, s: string, a: nat, j: nat)
    requires a <= |s| && ModeAt(s, a) == Plain && j <= |t| && a + j <= |s|
    requires forall k | 0 <= k <= j :: Look(t, k) == Look(s, a + k)
    ensures ModeAt(t, j) == ModeAt(s, a + j)
  {
    if j > 0 {
      ReadAlike(t, s, a, j - 1);
      assert Look(t, j - 1) == Look(s, a + (j - 1));
    }
  }

  // A run of kept characters that is met outside quotes and escapes.
  ghost predicate Run(s: string, a: nat, b: nat) {
    && a <= b <= |s| && (a < b ==> ModeAt(s, a) == Plain)
    && forall k | a <= k < b :: RoleAt(s, k) == Kept
  }

  // Blanks at the start of a run leave its mode plain.
  lemma {:induction false} BlanksStayPlain(s: string, a: nat, n: nat)
    requires a + n <= |s| && ModeAt(s, a) == Plain
    requires forall k | a <= k < a + n :: RoleAt(s, k) == Kept && Blank(s[k])
    ensures ModeAt(s, a + n) == Plain
  {
    hide ModeAt, RoleAt, Blank;
    if n > 0 {
      BlanksStayPlain(s, a, n - 1);
      BlankStaysPlain(s, a + (n - 1));
    }
  }

  lemma BlankStaysPlain(s: string, k: nat)
    requires k < |s| && ModeAt(s, k) == Plain && RoleAt(s, k) == Kept && Blank(s[k])
    ensures ModeAt(s, k + 1) == Plain
  {
  }

  // Blanks never close a quote.
  lemma {:induction false} BlanksKeepQuotes(s: string, b: nat, n: nat)
    requires b + n <= |s| && (forall k | b <= k < b + n :: Blank(s[k]))
    requires ModeAt(s, b) in {Single, Double}
    ensures ModeAt(s, b + n) == ModeAt(s, b)
  {
    hide ModeAt, Blank;
    if n > 0 {
      BlanksKeepQuotes(s, b, n - 1);
      BlankKeepsQuote(s, b + (n - 1));
    }
  }

  lemma BlankKeepsQuote(s: string, k: nat)
    requires k < |s| && ModeAt(s, k) in {Single, Double} && Blank(s[k])
    ensures ModeAt(s, k + 1) == ModeAt(s, k)
  {
  }

  lemma RunIsSolid(s: string, a: nat, b: nat)
    requires a < b <= |s| && ModeAt(s, a) == Plain && Trimmed(s[a..b])
    requires forall k | a <= k < b :: RoleAt(s, k) == Kept
    ensures Solid(s[a..b])
  {
    var t := s[a..b];
    forall k | 0 <= k < |t|
      ensures RoleAt(t, k) == Kept
    {
      ReadAlike(t, s, a, k);
      assert RoleAt(s, a + k) == Kept;
    }
  }

  // Two readings that part only in what follows, where one ends outside quotes.
  lemma EndsAlike(m: Mode, c: char, d: char)
    requires !Blank(c) && m != SeparatorTail && m != EscapedNewline
    requires m == Plain ==> c !in {';', '|'} && (c == '&' ==> d != '&')
    requires After(m, c, Some(d)) !in {Single, Double, DoubleEscaped}
    ensures After(m, c, Some(' ')) in {Plain, Escaped}
  {
  }

  // A blank run that reaches plain mode began in no quote.
  lemma BlanksBeganOutside(s: string, b: nat, e: nat)
    requires b <= e <= |s| && (forall k | b <= k < e :: Blank(s[k])) && ModeAt(s, e) == Plain
    ensures ModeAt(s, b) !in {Single, Double, DoubleEscaped}
  {
    if ModeAt(s, b) in {Single, Double} {
      BlanksKeepQuotes(s, b, e - b);
    } else if ModeAt(s, b) == DoubleEscaped && b < e {
      BlanksKeepQuotes(s, b + 1, e - b - 1);
    }
  }

  lemma RunIsClosed(s: string, a: nat, b: nat, e: nat)
    requires a < b <= e < |s| && ModeAt(s, a) == Plain && Trimmed(s[a..b])
    requires forall k | a <= k < b :: RoleAt(s, k) == Kept
    requires (forall k | b <= k < e :: Blank(s[k])) && ModeAt(s, e) == Plain
    ensures Closed(s[a..b])
  {
    hide Solid, After, Whole;
    RunIsSolid(s, a, b);
    BlanksBeganOutside(s, b, e);
    var t := s[a..b];
    var w, n := t + " ", |t|;
    ReadAlike(w, s, a, n - 1);
    AwaitedCharacter(s, b - 1);
    var m, c := ModeAt(s, b - 1), s[b - 1];
    assert RoleAt(s, b - 1) == Kept && c == t[n - 1];
    assert ModeAt(s, b) == After(m, c, Some(s[b]));
    EndsAlike(m, c, s[b]);
    BlankAfter(w, n, m, c);
  }

  lemma BlankAfter(w: string, n: nat, m: Mode, c: char)
    requires 0 < n && |w| == n + 1 && w[n - 1] == c && w[n] == ' ' && ModeAt(w, n - 1) == m
    requires After(m, c, Some(' ')) in {Plain, Escaped}
    ensures ModeAt(w, n) in {Plain, Escaped} && RoleAt(w, n) == Kept && ModeAt(w, n + 1) == Plain
  {
  }

  // Where stripping cuts a stretch of s.
  lemma StripCutsSlice(s: string, a: nat, b: nat) returns (x: nat, y: nat)
    requires a <= b <= |s|
    ensures a <= x <= y <= b && Strip(s[a..b]) == s[x..y] && Trimmed(s[x..y])
    ensures forall k | a <= k < b && (k < x || y <= k) :: Blank(s[k])
  {
    hide Strip, Blank;
    var t := s[a..b];
    var i, j := StripCuts(t);
    x, y := a + i, a + j;
    SliceOfSlice(s, a, b - a, i, j);
    forall k | a <= k < b && (k < x || y <= k)
      ensures Blank(s[k])
    {
      if k < x {
        assert t[..i][k - a] == s[k];
      } else {
        assert t[j..][k - y] == s[k];
      }
    }
  }

  // Stripping a run leaves nothing, or a segment.
  lemma RunStrips(s: string, a: nat, b: nat)
    requires Run(s, a, b)
    ensures var t := Strip(s[a..b]);
            && (t == "" || Solid(t))
            && (b < |s| && ModeAt(s, b) == Plain ==> t == "" || Closed(t))
  {
    hide Strip, Blank, Solid, Closed, Trimmed, ModeAt, RoleAt;
    var x, y := StripCutsSlice(s, a, b);
    if x < y {
      BlanksStayPlain(s, a, x - a);
      RunIsSolid(s, x, y);
      if b < |s| && ModeAt(s, b) == Plain {
        RunIsClosed(s, x, y, b);
      }
    }
  }

  // Where the run before character k starts.
  ghost function RunStart(s: string, k: nat): (a: nat)
    requires k <= |s|
    ensures a <= k
  {
    if k == 0 then 0 else if RoleAt(s, k - 1) == Kept then RunStart(s, k - 1) else k
  }

  ghost predicate Divided(s: string, k: nat)
    requires k <= |s|
  {
    var raws, a := LayoutAt(s, k).raws, RunStart(s, k);
    && Run(s, a, k) && Last(raws) == s[a..k]
    && (ModeAt(s, a) == Plain || (a == k && ModeAt(s, k) == SeparatorTail))
    && forall i | 0 <= i < |raws| - 1 :: Strip(raws[i]) == "" || Closed(Strip(raws[i]))
  }

  lemma DividedGrows(s: string, k: nat)
    requires k < |s| && Divided(s, k)
    ensures Divided(s, k + 1)
  {
    hide LayoutAt, Strip, Closed, Solid;
    RawsStep(s, k);
    AwaitedCharacter(s, k);
    AwaitedCharacter(s, k + 1);
    var raws, next, a := LayoutAt(s, k).raws, LayoutAt(s, k + 1).raws, RunStart(s, k);
    assert s[k + 1..k + 1] == "";
    match RoleAt(s, k)
    case Kept =>
      assert s[a..k + 1] == s[a..k] + [s[k]];
    case Starts =>
      RunStrips(s, a, k);
    case Continues =>
  }

  lemma {:induction false} EveryPrefixDivided(s: string, k: nat)
    requires k <= |s|
    ensures Divided(s, k)
  {
    if k > 0 {
      EveryPrefixDivided(s, k - 1);
      DividedGrows(s, k - 1);
    }
  }

  // What any split looks like.
  ghost predicate Chainable(ts: seq<string>) {
    forall i | 0 <= i < |ts| :: Solid(ts[i]) && (i < |ts| - 1 ==> Closed(ts[i]))
  }

  lemma {:induction false} NonBlankIsClosed(raws: seq<string>)
    requires forall r | r in raws :: Strip(r) == "" || Closed(Strip(r))
    ensures forall t | t in NonBlank(raws) :: Closed(t)
  {
    if raws != [] {
      NonBlankIsClosed(Init(raws));
    }
  }

  lemma SegmentsAreChainable(s: string)
    ensures Chainable(Segments(s))
  {
    EveryPrefixDivided(s, |s|);
    AwaitedCharacter(s, |s|);
    var raws := LayoutAt(s, |s|).raws;
    NonBlankIsClosed(Init(raws));
    RunStrips(s, RunStart(s, |s|), |s|);
    var front := NonBlank(Init(raws));
    assert forall i | 0 <= i < |front| :: front[i] in front;
  }

  lemma SolidSplitsToItself(t: string)
    requires Solid(t)
    ensures Segments(t) == [t]
  {
    StartsWith(t, t);
    StripIs(t, 0, |t|);
    assert NonBlank([t]) == NonBlank([]) + [t];
  }

  // Splitting a segment again yields exactly that segment.
  lemma SplitAgain(s: string, i: nat)
    requires i < |Segments(s)|
    ensures Segments(Segments(s)[i]) == [Segments(s)[i]]
  {
    SegmentsAreChainable(s);
    SolidSplitsToItself(Segments(s)[i]);
  }

  /******* Joining segments *******/

  ghost function Rejoin(ts: seq<string>): string {
    if ts == [] then "" else if |ts| == 1 then ts[0] else ts[0] + " ; " + Rejoin(ts[1..])
  }

  // The raw segments of a text that follows "first ; ".
  ghost function Glue(first: string, raws: seq<string>): seq<string>
    requires raws != []
  {
    [first, " " + raws[0]] + raws[1..]
  }

  lemma StripSkipsBlank(x: string)
    ensures Strip(" " + x) == Strip(x)
  {
    assert (" " + x)[1..] == x;
  }

  lemma {:induction false} GlueNonBlank(first: string, raws: seq<string>)
    requires raws != [] && Strip(first) != ""
    ensures NonBlank(Glue(first, raws)) == [Strip(first)] + NonBlank(raws)
  {
    var all := Glue(first, raws);
    if |raws| == 1 {
      StripSkipsBlank(raws[0]);
      assert Init(all) == [first] && Init(raws) == [] && Init([first]) == [];
    } else {
      assert Init(all) == Glue(first, Init(raws));
      GlueNonBlank(first, Init(raws));
    }
  }

  lemma GlueStep(first: string, raws: seq<string>, role: Role, c: char)
    requires raws != []
    ensures NextRaws(Glue(first, raws), role, c) == Glue(first, NextRaws(raws, role, c))
  {
    var glued := Glue(first, raws);
    if role == Kept {
      if |raws| == 1 {
        assert " " + raws[0] + [c] == " " + (raws[0] + [c]);
        assert NextRaws(glued, role, c) == [first, " " + raws[0] + [c]];
        assert NextRaws(raws, role, c) == [raws[0] + [c]];
      } else {
        assert Last(glued) == Last(raws) && Init(glued) == Glue(first, Init(raws));
      }
    }
  }

  lemma ReadsOnStep(s: string, o: nat, u: string, first: string, j: nat)
    requires o <= |s| && s[o..] == u && j < |u| && ModeAt(s, o) == Plain
    requires LayoutAt(s, o + j).raws == Glue(first, LayoutAt(u, j).raws)
    ensures LayoutAt(s, o + j + 1).raws == Glue(first, LayoutAt(u, j + 1).raws)
  {
    hide LayoutAt, NextRaws, Glue;
    assert forall k | 0 <= k <= |u| :: Look(u, k) == Look(s, o + k);
    ReadAlike(u, s, o, j);
    assert RoleAt(u, j) == RoleAt(s, o + j);
    RawsStep(u, j);
    RawsStep(s, o + j);
    GlueStep(first, LayoutAt(u, j).raws, RoleAt(u, j), u[j]);
  }

  lemma ReadsOnFromStart(first: string, u: string)
    ensures Glue(first, LayoutAt(u, 0).raws) == [first, " "]
  {
    assert " " + "" == " ";
  }

  // Reading goes on after a separator as it would from the start.
  lemma {:induction false} ReadsOn(s: string, o: nat, u: string, first: string, j: nat)
    requires o <= |s| && s[o..] == u && j <= |u|
    requires ModeAt(s, o) == Plain && LayoutAt(s, o).raws == [first, " "]
    ensures LayoutAt(s, o + j).raws == Glue(first, LayoutAt(u, j).raws)
  {
    hide LayoutAt, NextRaws, Glue, ModeAt, RoleAt;
    if j == 0 {
      ReadsOnFromStart(first, u);
    } else {
      ReadsOn(s, o, u, first, j - 1);
      ReadsOnStep(s, o, u, first, j - 1);
    }
  }

  // How a closed segment and the separator after it are read.
  lemma ReadsClosed(s: string, t: string)
    requires Closed(t) && t + " ; " <= s
    ensures var n := |t|;
            && (forall k | 0 <= k <= n :: RoleAt(s, k) == Kept)
            && ModeAt(s, n + 1) == Plain && RoleAt(s, n + 1) == Starts
            && ModeAt(s, n + 2) == Plain && RoleAt(s, n + 2) == Kept
            && ModeAt(s, n + 3) == Plain
  {
    var w, n := t + " ", |t|;
    assert s[n] == ' ' && s[n + 1] == ';' && s[n + 2] == ' ' && forall k | 0 <= k < n :: s[k] == t[k];
    forall k | 0 <= k < n
      ensures RoleAt(s, k) == Kept
    {
      ReadAlike(t, s, 0, k);
      assert RoleAt(t, k) == Kept;
    }
    ReadAlike(w, s, 0, n);
    assert ModeAt(s, n + 1) == After(ModeAt(s, n), ' ', Some(';'));
  }

  lemma LaysOutClosed(s: string, t: string)
    requires Closed(t) && t + " ; " <= s
    ensures LayoutAt(s, |t| + 3).raws == [t + " ", " "]
  {
    var w, n := t + " ", |t|;
    ReadsClosed(s, t);
    StartsWith(s, w);
    RawsStep(s, n + 1);
    RawsStep(s, n + 2);
    assert s[n + 2] == ' ' && Init([w, ""]) == [w] && "" + " " == " ";
  }

  lemma StartsWith(s: string, w: string)
    requires w <= s && forall k | 0 <= k < |w| :: RoleAt(s, k) == Kept
    ensures LayoutAt(s, |w|).raws == [w]
  {
    KeepsRun(s, 0, |w|);
    assert s[0..|w|] == w && LayoutAt(s, 0).raws == [""] && Init([""]) == [] && "" + w == w;
    var raws := LayoutAt(s, |w|).raws;
    assert raws == Init(raws) + [Last(raws)];
  }

  // A closed segment, a separator, and any text: the segment, then the text's segments.
  lemma SplitAfterClosed(t: string, u: string)
    requires Closed(t)
    ensures Segments(t + " ; " + u) == [t] + Segments(u)
  {
    hide LayoutAt, Glue, RoleAt, ModeAt, NonBlank;
    var s, w, n := t + " ; " + u, t + " ", |t|;
    ReadsClosed(s, t);
    LaysOutClosed(s, t);
    assert s[n + 3..] == u;
    ReadsOn(s, n + 3, u, w, |u|);
    assert w[0..n] == t;
    StripIs(w, 0, n);
    GlueNonBlank(w, LayoutAt(u, |u|).raws);
  }

  lemma {:induction false} ChainSplitsBack(ts: seq<string>)
    requires Chainable(ts)
    ensures Segments(Rejoin(ts)) == ts
  {
    if ts == [] {
      assert Strip("") == "" && LayoutAt("", 0).raws == [""];
    } else if |ts| == 1 {
      SolidSplitsToItself(ts[0]);
    } else {
      ChainSplitsBack(ts[1..]);
      SplitAfterClosed(ts[0], Rejoin(ts[1..]));
    }
  }

  // Segments joined by " ; " split back to the same segments.
  lemma RejoinedSplitsBack(s: string)
    ensures Segments(Rejoin(Segments(s))) == Segments(s)
  {
    SegmentsAreChainable(s);
    ChainSplitsBack(Segments(s));
  }

  // Nothing in the text separates.
  ghost predicate Alone(t: string) {
    forall k | 0 <= k < |t| :: !Separates(t, k)
  }

  lemma AloneExactly(t: string)
    ensures AllKept(t) <==> Alone(t)
  {
    hide LayoutAt, Separates;
    if AllKept(t) {
      forall k | 0 <= k < |t|
        ensures !Separates(t, k)
      {
        assert RoleAt(t, k) == Kept;
        StartsExactly(t, k);
      }
    }
    if Alone(t) {
      forall k | 0 <= k < |t|
        ensures RoleAt(t, k) == Kept
      {
        KeepsOn(t, 0, k);
        StartsExactly(t, k);
      }
    }
  }

  // A blank behind the text is met outside quotes, or escaped.
  lemma ClosedExactly(t: string)
    ensures Closed(t) <==> t != "" && Trimmed(t) && Alone(t) && Whole(t + " ")
  {
    hide Whole, Alone, AllKept;
    AloneExactly(t);
    var w, s, n := t + " ", t + " " + " ", |t|;
    assert s[..n + 1] == w && s[n] == w[n] == ' ' && forall k | 0 <= k < n :: s[k] == w[k];
    ReadAlike(w, s, 0, n);
    StepOfMode(w, n);
    StepOfMode(s, n);
    AwaitedCharacter(w, n);
    OutsideExactly(s, n + 1);
  }

  // Exactly these lists are splits of commands: stripped nonempty texts in which nothing separates,
  // and every one but the last closed, so that a blank behind it is no part of a quote.
  lemma SplitsExactly(ts: seq<string>)
    ensures (exists s :: Segments(s) == ts) <==>
            forall i | 0 <= i < |ts| ::
              && ts[i] != "" && Trimmed(ts[i]) && (forall k | 0 <= k < |ts[i]| :: !Separates(ts[i], k))
              && (i < |ts| - 1 ==> Whole(ts[i] + " "))
  {
    hide Whole, Separates, AllKept, Segments, Closed, Trimmed;
    forall s | Segments(s) == ts
      ensures Chainable(ts)
    {
      SegmentsAreChainable(s);
    }
    if Chainable(ts) {
      ChainSplitsBack(ts);
    }
    forall i | 0 <= i < |ts|
      ensures Solid(ts[i]) <==> ts[i] != "" && Trimmed(ts[i]) && Alone(ts[i])
      ensures Closed(ts[i]) <==> Solid(ts[i]) && Whole(ts[i] + " ")
    {
      AloneExactly(ts[i]);
      ClosedExactly(ts[i]);
    }
  }
}
