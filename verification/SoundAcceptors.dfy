/**
 Two fields of a sound expansion that are described twice: to the language model by a
 schema (an enumeration, a pattern), and to the parser by regular expressions with
 range checks. Each pair accepts the same strings.
 */
module SoundAcceptors {
  import opened Basics
  import opened Text

  /** Regular expressions that match whole strings. */
  datatype Regex =
    | Nothing
    | Range(lo: char, hi: char)
    | Literal(text: string)
    | Cat(left: Regex, right: Regex)
    | Alt(left: Regex, right: Regex)
    | Maybe(inner: Regex)

  predicate Matches(r: Regex, s: string) {
    match r
    case Nothing => false
    case Range(lo, hi) => |s| == 1 && lo <= s[0] <= hi
    case Literal(text) => s == text
    case Cat(a, b) => exists k | 0 <= k <= |s| :: Matches(a, s[..k]) && Matches(b, s[k..])
    case Alt(a, b) => Matches(a, s) || Matches(b, s)
    case Maybe(a) => s == "" || Matches(a, s)
  }

  function AnyOf(words: seq<string>): Regex {
    if words == [] then Nothing else Alt(Literal(words[0]), AnyOf(words[1..]))
  }

  lemma CatOf(a: Regex, b: Regex, s: string, t: string)
    requires Matches(a, s) && Matches(b, t)
    ensures Matches(Cat(a, b), s + t)
  {
    var st := s + t;
    assert st[..|s|] == s && st[|s|..] == t;
  }

  lemma CatParts(a: Regex, b: Regex, st: string) returns (s: string, t: string)
    requires Matches(Cat(a, b), st)
    ensures st == s + t && Matches(a, s) && Matches(b, t)
  {
    var k :| 0 <= k <= |st| && Matches(a, st[..k]) && Matches(b, st[k..]);
    hide Matches;
    s, t := st[..k], st[k..];
  }

  // ---------- Keys ----------

  function ModeWords(): (w: seq<string>)
    ensures |w| == 11
  {
    ["major", "minor", "maj", "min", "dorian", "phrygian", "lydian", "mixolydian", "locrian", "ionian", "aeolian"]
  }

  function NoteRegex(): Regex {
    Alt(Range('A', 'G'), Range('a', 'g'))
  }

  function AccidentalRegex(): Regex {
    Maybe(Alt(Literal("#"), Literal("b")))
  }

  function ModeRegex(): Regex {
    Maybe(Cat(Literal(" "), AnyOf(ModeWords())))
  }

  function KeyRegex(): Regex {
    Cat(NoteRegex(), Cat(AccidentalRegex(), ModeRegex()))
  }

  const MAX_KEY := 32

  /** The parser's check. */
  predicate AcceptsKey(s: string) {
    |s| <= MAX_KEY && Matches(KeyRegex(), s)
  }

  function Notes(): (w: string)
    ensures |w| == 14
  {
    "ABCDEFGabcdefg"
  }

  function Accidentals(): (w: seq<string>)
    ensures |w| == 3
  {
    ["", "#", "b"]
  }

  function Modes(): (w: seq<string>)
    ensures |w| == 12
  {
    ["", "major", "minor", "maj", "min", "dorian", "phrygian", "lydian", "mixolydian", "locrian", "ionian", "aeolian"]
  }

  function Tail(mode: string): string {
    if mode == "" then "" else " " + mode
  }

  function Key(n: nat, a: nat, m: nat): string
    requires n < 14 && a < 3 && m < 12
  {
    [Notes()[n]] + (Accidentals()[a] + Tail(Modes()[m]))
  }

  /** The position of a combination in the enumeration. */
  function Position(n: nat, a: nat, m: nat): nat {
    n * 36 + a * 12 + m
  }

  /** The enumeration: every combination at its own position. */
  ghost predicate Enumerates(values: seq<string>) {
    && |values| == 504
    && forall n: nat, a: nat, m: nat | n < 14 && a < 3 && m < 12 ::
         Position(n, a, m) < 504 && values[Position(n, a, m)] == Key(n, a, m)
  }

  /** Exactly the positions before (n, a, m) are filled. */
  ghost predicate FilledTo(values: seq<string>, n: nat, a: nat, m: nat) {
    && |values| == Position(n, a, m)
    && forall i: nat, b: nat, k: nat | i < 14 && b < 3 && k < 12 && Position(i, b, k) < |values| ::
         values[Position(i, b, k)] == Key(i, b, k)
  }

  lemma FillStep(values: seq<string>, n: nat, a: nat, m: nat)
    requires n < 14 && a < 3 && m < 12 && FilledTo(values, n, a, m)
    ensures FilledTo(values + [Key(n, a, m)], n, a, m + 1)
  {
    hide Key, Notes, Accidentals, Modes;
  }

  lemma FillNothing()
    ensures FilledTo([], 0, 0, 0)
  {
    hide Key;
  }

  lemma FillRow(values: seq<string>, n: nat, a: nat)
    requires FilledTo(values, n, a, 12)
    ensures FilledTo(values, n, a + 1, 0)
  {
    hide Key;
    assert Position(n, a, 12) == Position(n, a + 1, 0);
  }

  lemma FillNote(values: seq<string>, n: nat)
    requires FilledTo(values, n, 3, 0)
    ensures FilledTo(values, n + 1, 0, 0)
  {
    hide Key;
    assert Position(n, 3, 0) == Position(n + 1, 0, 0);
  }

  lemma FillDone(values: seq<string>, n: nat)
    requires n == 14 && FilledTo(values, n, 0, 0)
    ensures Enumerates(values)
  {
    hide Key;
    forall i: nat, b: nat, k: nat | i < 14 && b < 3 && k < 12 ensures Position(i, b, k) < 504 {
    }
  }

  lemma KeyIs(n: nat, a: nat, m: nat, key: string)
    requires n < 14 && a < 3 && m < 12
    requires var front := [Notes()[n]] + Accidentals()[a];
             key == if Modes()[m] == "" then front else front + " " + Modes()[m]
    ensures key == Key(n, a, m)
  {
    hide Notes, Accidentals, Modes;
    var note, acc, mode := [Notes()[n]], Accidentals()[a], Modes()[m];
    assert (note + acc + " ") + mode == note + (acc + (" " + mode));
    assert note + acc == note + (acc + "");
  }

  method KeyscaleValues() returns (values: seq<string>)
    ensures Enumerates(values)
  {
    hide Key, Notes, Accidentals, Modes, FilledTo, Enumerates, Position;
    values := [];
    FillNothing();
    var n := 0;
    while n < |Notes()|
      invariant n <= 14 && FilledTo(values, n, 0, 0)
    {
      var a := 0;
      while a < |Accidentals()|
        invariant a <= 3 && FilledTo(values, n, a, 0)
      {
        var m := 0;
        while m < |Modes()|
          invariant m <= 12 && FilledTo(values, n, a, m)
        {
          FillStep(values, n, a, m);
          var key := [Notes()[n]] + Accidentals()[a];
          if Modes()[m] != "" {
            key := key + " " + Modes()[m];
          }
          KeyIs(n, a, m, key);
          values := values + [key];
          m := m + 1;
        }
        FillRow(values, n, a);
        a := a + 1;
      }
      FillNote(values, n);
      n := n + 1;
    }
    FillDone(values, n);
  }

  /** Every position is that of one combination. */
  lemma Combination(p: nat) returns (n: nat, a: nat, m: nat)
    requires p < 504
    ensures n < 14 && a < 3 && m < 12 && Position(n, a, m) == p
  {
    n, a, m := p / 36, p % 36 / 12, p % 12;
  }

  lemma EnumeratedKeys(values: seq<string>, s: string)
    requires Enumerates(values)
    ensures s in values <==> exists n: nat, a: nat, m: nat | n < 14 && a < 3 && m < 12 :: s == Key(n, a, m)
  {
    hide Key, Notes, Accidentals, Modes;
    if s in values {
      var p :| 0 <= p < |values| && values[p] == s;
      var n, a, m := Combination(p);
      assert s == Key(n, a, m);
    }
  }

  // ---------- The key expression matches exactly the combinations ----------

  lemma {:induction false} AnyOfWords(words: seq<string>, s: string)
    ensures Matches(AnyOf(words), s) <==> s in words
  {
    if words != [] {
      AnyOfWords(words[1..], s);
      assert words == [words[0]] + words[1..];
    }
  }

  lemma NoteAt(n: nat)
    requires n < 14
    ensures Notes()[n] == if n < 7 then 'A' + n as char else 'a' + (n - 7) as char
  {
  }

  lemma NoteMatches(s: string)
    ensures Matches(NoteRegex(), s) <==> exists n: nat | n < 14 :: s == [Notes()[n]]
  {
    hide Notes, Matches;
    AltMatches(Range('A', 'G'), Range('a', 'g'), s);
    DigitMatches('A', 'G', s);
    DigitMatches('a', 'g', s);
    if Matches(NoteRegex(), s) {
      var n := if s[0] <= 'G' then s[0] as int - 'A' as int else 7 + s[0] as int - 'a' as int;
      NoteAt(n);
      assert s == [Notes()[n]];
    }
    if n: nat :| n < 14 && s == [Notes()[n]] {
      NoteAt(n);
    }
  }

  lemma AccidentalMatches(s: string)
    ensures Matches(AccidentalRegex(), s) <==> exists a: nat | a < 3 :: s == Accidentals()[a]
  {
    MaybeMatches(Alt(Literal("#"), Literal("b")), s);
    AltMatches(Literal("#"), Literal("b"), s);
    hide Matches;
    LiteralMatches("#", s);
    LiteralMatches("b", s);
    assert Accidentals()[0] == "" && Accidentals()[1] == "#" && Accidentals()[2] == "b";
    if a: nat :| a < 3 && s == Accidentals()[a] {
      assert s == "" || s == "#" || s == "b";
    }
    if s == "" {
      assert s == Accidentals()[0];
    } else if s == "#" {
      assert s == Accidentals()[1];
    } else if s == "b" {
      assert s == Accidentals()[2];
    }
  }

  lemma MaybeMatches(a: Regex, s: string)
    ensures Matches(Maybe(a), s) <==> s == "" || Matches(a, s)
  {
  }

  lemma ModesAreTheWords()
    ensures Modes() == [""] + ModeWords()
    ensures forall k | 0 <= k < 11 :: ModeWords()[k] != ""
  {
  }

  lemma ModeMatches(s: string)
    ensures Matches(ModeRegex(), s) <==> exists m: nat | m < 12 :: s == Tail(Modes()[m])
  {
    hide AnyOf, Modes, ModeWords;
    ModesAreTheWords();
    if Matches(ModeRegex(), s) && s != "" {
      var _, word := CatParts(Literal(" "), AnyOf(ModeWords()), s);
      AnyOfWords(ModeWords(), word);
      var m :| 0 <= m < 11 && ModeWords()[m] == word;
      assert s == Tail(Modes()[m + 1]);
    } else if s == "" {
      assert s == Tail(Modes()[0]);
    } else if m: nat :| m < 12 && s == Tail(Modes()[m]) {
      assert m > 0 && Modes()[m] == ModeWords()[m - 1];
      AnyOfWords(ModeWords(), Modes()[m]);
      CatOf(Literal(" "), AnyOf(ModeWords()), " ", Modes()[m]);
    }
  }

  lemma KeyLength(n: nat, a: nat, m: nat)
    requires n < 14 && a < 3 && m < 12
    ensures |Key(n, a, m)| <= 13
  {
    hide Notes;
    assert |Modes()[m]| <= 10 && |Accidentals()[a]| <= 1;
  }

  lemma CombinationMatches(n: nat, a: nat, m: nat)
    requires n < 14 && a < 3 && m < 12
    ensures Matches(KeyRegex(), Key(n, a, m))
  {
    hide NoteRegex, AccidentalRegex, ModeRegex, Notes, Accidentals, Modes, Tail, Matches;
    var acc, tail := Accidentals()[a], Tail(Modes()[m]);
    NoteMatches([Notes()[n]]);
    AccidentalMatches(acc);
    ModeMatches(tail);
    CatOf(AccidentalRegex(), ModeRegex(), acc, tail);
    CatOf(NoteRegex(), Cat(AccidentalRegex(), ModeRegex()), [Notes()[n]], acc + tail);
  }

  lemma MatchIsCombination(s: string) returns (n: nat, a: nat, m: nat)
    requires Matches(KeyRegex(), s)
    ensures n < 14 && a < 3 && m < 12 && s == Key(n, a, m)
  {
    hide NoteRegex, AccidentalRegex, ModeRegex, Notes, Accidentals, Modes, Tail, Matches;
    var note, rest := CatParts(NoteRegex(), Cat(AccidentalRegex(), ModeRegex()), s);
    var acc, tail := CatParts(AccidentalRegex(), ModeRegex(), rest);
    NoteMatches(note);
    AccidentalMatches(acc);
    ModeMatches(tail);
    n :| n < 14 && note == [Notes()[n]];
    a :| a < 3 && acc == Accidentals()[a];
    m :| m < 12 && tail == Tail(Modes()[m]);
  }

  /** The parser accepts a key exactly when the schema lists it; the length cap never decides. */
  lemma KeyAgreement(values: seq<string>, s: string)
    requires Enumerates(values)
    ensures AcceptsKey(s) <==> s in values
    ensures Matches(KeyRegex(), s) ==> |s| <= 13
  {
    hide Key, KeyRegex, Enumerates, Matches;
    EnumeratedKeys(values, s);
    if Matches(KeyRegex(), s) {
      var n, a, m := MatchIsCombination(s);
      KeyLength(n, a, m);
    } else if n: nat, a: nat, m: nat :| n < 14 && a < 3 && m < 12 && s == Key(n, a, m) {
      CombinationMatches(n, a, m);
    }
  }

  // ---------- The 504 values differ ----------

  /** Where a mode stands in the list. */
  function ModeIndex(s: string): nat {
    if s == "" then 0
    else if |s| == 5 then (if s[1] == 'a' then 1 else 2)
    else if |s| == 3 then (if s[1] == 'a' then 3 else 4)
    else if |s| == 6 then (if s[0] == 'd' then 5 else if s[0] == 'l' then 7 else 10)
    else if |s| == 8 then 6
    else if |s| == 10 then 8
    else if |s| == 7 && s[0] == 'l' then 9
    else 11
  }

  lemma ModesDiffer(m: nat, k: nat)
    requires m < 12 && k < 12 && Modes()[m] == Modes()[k]
    ensures m == k
  {
    assert ModeIndex(Modes()[m]) == m && ModeIndex(Modes()[k]) == k;
  }

  lemma TailInjective(x: string, y: string)
    requires Tail(x) == Tail(y)
    ensures x == y
  {
    assert x != "" ==> Tail(x)[1..] == x;
    assert y != "" ==> Tail(y)[1..] == y;
  }

  lemma AccidentalsDiffer(a: nat, s: string, b: nat, t: string)
    requires a < 3 && b < 3 && Accidentals()[a] + s == Accidentals()[b] + t
    requires (s == "" || s[0] == ' ') && (t == "" || t[0] == ' ')
    ensures a == b && s == t
  {
    var x := Accidentals()[a] + s;
    assert a == if x == "" || x[0] == ' ' then 0 else if x[0] == '#' then 1 else 2;
    assert b == if x == "" || x[0] == ' ' then 0 else if x[0] == '#' then 1 else 2;
    assert s == x[|Accidentals()[a]|..] && t == x[|Accidentals()[b]|..];
  }

  /** A combination can be read back from its string. */
  lemma KeysDiffer(n: nat, a: nat, m: nat, i: nat, b: nat, k: nat)
    requires n < 14 && a < 3 && m < 12 && i < 14 && b < 3 && k < 12 && Key(n, a, m) == Key(i, b, k)
    ensures n == i && a == b && m == k
  {
    hide Notes, Accidentals, Modes;
    var s := Key(n, a, m);
    var x, y := Modes()[m], Modes()[k];
    assert s[0] == Notes()[n] && s[0] == Notes()[i];
    NoteAt(n);
    NoteAt(i);
    assert s[1..] == Accidentals()[a] + Tail(x) && s[1..] == Accidentals()[b] + Tail(y);
    AccidentalsDiffer(a, Tail(x), b, Tail(y));
    TailInjective(x, y);
    ModesDiffer(m, k);
  }

  /** The enumeration holds 504 different values. */
  lemma ValuesDiffer(values: seq<string>, p: nat, q: nat)
    requires Enumerates(values) && p < 504 && q < 504 && values[p] == values[q]
    ensures p == q
  {
    hide Key, Notes, Accidentals, Modes;
    var n, a, m := Combination(p);
    var i, b, k := Combination(q);
    KeysDiffer(n, a, m, i, b, k);
  }

  // ---------- Meters ----------

  function DigitRegex(): Regex {
    Range('0', '9')
  }

  /** One or two digits. */
  function CountRegex(): Regex {
    Cat(DigitRegex(), Maybe(DigitRegex()))
  }

  /** The numbers 1 to 32, with an optional leading zero on one digit. */
  function BoundedRegex(): Regex {
    Alt(Cat(Maybe(Literal("0")), Range('1', '9')),
        Alt(Cat(Range('1', '2'), Range('0', '9')), Cat(Literal("3"), Range('0', '2'))))
  }

  function MeterOf(part: Regex): Regex {
    Cat(part, Cat(Literal("/"), part))
  }

  /** A meter cut at a slash. */
  predicate CutAt(part: Regex, s: string, k: nat) {
    k < |s| && s[k] == '/' && Matches(part, s[..k]) && Matches(part, s[k + 1..])
  }

  predicate InRange(s: string) {
    AllDigits(s) && 1 <= Value(s) <= 32
  }

  /** The parser's check: the submatches of the meter expression, each from 1 through 32. */
  predicate AcceptsMeter(s: string) {
    exists k | 0 <= k < |s| :: CutAt(CountRegex(), s, k) && InRange(s[..k]) && InRange(s[k + 1..])
  }

  predicate SchemaAcceptsMeter(s: string) {
    Matches(MeterOf(BoundedRegex()), s)
  }

  lemma MeterCut(part: Regex, s: string)
    ensures Matches(MeterOf(part), s) <==> exists k: nat :: CutAt(part, s, k)
  {
    hide Matches;
    if Matches(MeterOf(part), s) {
      var a, rest := CatParts(part, Cat(Literal("/"), part), s);
      var slash, b := CatParts(Literal("/"), part, rest);
      LiteralMatches("/", slash);
      assert s[|a|] == '/' && s[..|a|] == a && s[|a| + 1..] == b;
      assert CutAt(part, s, |a|);
    }
    if k: nat :| CutAt(part, s, k) {
      LiteralMatches("/", "/");
      CatOf(Literal("/"), part, "/", s[k + 1..]);
      CatOf(part, Cat(Literal("/"), part), s[..k], "/" + s[k + 1..]);
      assert s == s[..k] + ("/" + s[k + 1..]);
    }
  }

  lemma LiteralMatches(text: string, s: string)
    ensures Matches(Literal(text), s) <==> s == text
  {
  }

  lemma DigitMatches(lo: char, hi: char, s: string)
    ensures Matches(Range(lo, hi), s) <==> |s| == 1 && lo <= s[0] <= hi
    ensures Matches(Maybe(Range(lo, hi)), s) <==> s == "" || (|s| == 1 && lo <= s[0] <= hi)
  {
  }

  /** What counts as one or two digits. */
  lemma CountShape(s: string)
    ensures Matches(CountRegex(), s) <==> 1 <= |s| <= 2 && AllDigits(s)
  {
    hide Matches;
    if Matches(CountRegex(), s) {
      var a, b := CatParts(DigitRegex(), Maybe(DigitRegex()), s);
      DigitMatches('0', '9', a);
      DigitMatches('0', '9', b);
    }
    if 1 <= |s| <= 2 && AllDigits(s) {
      assert IsDigit(s[0]) && (|s| == 2 ==> IsDigit(s[1]));
      DigitMatches('0', '9', s[..1]);
      DigitMatches('0', '9', s[1..]);
      CatOf(DigitRegex(), Maybe(DigitRegex()), s[..1], s[1..]);
      assert s == s[..1] + s[1..];
    }
  }

  /** Two ranges in a row. */
  lemma PairMatches(a: char, b: char, c: char, d: char, s: string)
    ensures Matches(Cat(Range(a, b), Range(c, d)), s) <==> |s| == 2 && a <= s[0] <= b && c <= s[1] <= d
  {
    hide Matches;
    if Matches(Cat(Range(a, b), Range(c, d)), s) {
      var x, y := CatParts(Range(a, b), Range(c, d), s);
      DigitMatches(a, b, x);
      DigitMatches(c, d, y);
    }
    if |s| == 2 {
      DigitMatches(a, b, s[..1]);
      DigitMatches(c, d, s[1..]);
      assert s == s[..1] + s[1..];
      if a <= s[0] <= b && c <= s[1] <= d {
        CatOf(Range(a, b), Range(c, d), s[..1], s[1..]);
      }
    }
  }

  lemma AfterThree(s: string)
    ensures Matches(Cat(Literal("3"), Range('0', '2')), s) <==> |s| == 2 && s[0] == '3' && '0' <= s[1] <= '2'
  {
    hide Matches;
    if Matches(Cat(Literal("3"), Range('0', '2')), s) {
      var x, y := CatParts(Literal("3"), Range('0', '2'), s);
      LiteralMatches("3", x);
      DigitMatches('0', '2', y);
    }
    if |s| == 2 && s[0] == '3' && '0' <= s[1] <= '2' {
      assert s[..1] == "3" && s == s[..1] + s[1..];
      LiteralMatches("3", s[..1]);
      DigitMatches('0', '2', s[1..]);
      CatOf(Literal("3"), Range('0', '2'), s[..1], s[1..]);
    }
  }

  lemma LeadingZero(s: string)
    ensures Matches(Cat(Maybe(Literal("0")), Range('1', '9')), s) <==>
            (|s| == 1 && '1' <= s[0] <= '9') || (|s| == 2 && s[0] == '0' && '1' <= s[1] <= '9')
  {
    hide Matches;
    var zero, digit := Maybe(Literal("0")), Range('1', '9');
    if Matches(Cat(zero, digit), s) {
      var x, y := CatParts(zero, digit, s);
      MaybeZero(x);
      DigitMatches('1', '9', y);
    }
    if |s| == 1 && '1' <= s[0] <= '9' {
      MaybeZero("");
      DigitMatches('1', '9', s);
      CatOf(zero, digit, "", s);
      assert "" + s == s;
    }
    if |s| == 2 && s[0] == '0' && '1' <= s[1] <= '9' {
      assert s[..1] == "0" && s == s[..1] + s[1..];
      MaybeZero(s[..1]);
      DigitMatches('1', '9', s[1..]);
      CatOf(zero, digit, s[..1], s[1..]);
    }
  }

  lemma MaybeZero(s: string)
    ensures Matches(Maybe(Literal("0")), s) <==> s == "" || s == "0"
  {
  }

  lemma AltMatches(a: Regex, b: Regex, s: string)
    ensures Matches(Alt(a, b), s) <==> Matches(a, s) || Matches(b, s)
  {
  }

  lemma BoundedShape(s: string)
    ensures Matches(BoundedRegex(), s) <==>
            || (|s| == 1 && '1' <= s[0] <= '9')
            || (|s| == 2 && s[0] == '0' && '1' <= s[1] <= '9')
            || (|s| == 2 && '1' <= s[0] <= '2' && '0' <= s[1] <= '9')
            || (|s| == 2 && s[0] == '3' && '0' <= s[1] <= '2')
  {
    hide Matches;
    var zero := Cat(Maybe(Literal("0")), Range('1', '9'));
    var tens, thirties := Cat(Range('1', '2'), Range('0', '9')), Cat(Literal("3"), Range('0', '2'));
    AltMatches(zero, Alt(tens, thirties), s);
    AltMatches(tens, thirties, s);
    LeadingZero(s);
    PairMatches('1', '2', '0', '9', s);
    AfterThree(s);
  }

  lemma ValueOfShort(s: string)
    requires 1 <= |s| <= 2 && AllDigits(s)
    ensures Value(s) == if |s| == 1 then s[0] as int - '0' as int else (s[0] as int - '0' as int) * 10 + (s[1] as int - '0' as int)
  {
    assert s[..1][..0] == [];
    assert Value(s[..1]) == s[0] as int - '0' as int;
    if |s| == 1 {
      assert s[..1] == s;
    }
  }

  /** A part that the parser takes is one the schema takes. */
  lemma PartAgreement(s: string)
    ensures Matches(CountRegex(), s) && InRange(s) <==> Matches(BoundedRegex(), s)
  {
    hide CountRegex, BoundedRegex, Matches;
    CountShape(s);
    BoundedShape(s);
    if 1 <= |s| <= 2 && AllDigits(s) {
      ValueOfShort(s);
      assert IsDigit(s[0]) && (|s| == 2 ==> IsDigit(s[1]));
    }
  }

  /** The parser's expression with its range checks accepts exactly what the schema's pattern does. */
  lemma MeterAgreement(s: string)
    ensures AcceptsMeter(s) <==> SchemaAcceptsMeter(s)
  {
    hide CountRegex, BoundedRegex, InRange, Matches, MeterOf;
    MeterCut(BoundedRegex(), s);
    forall k | 0 <= k < |s|
      ensures CutAt(CountRegex(), s, k) && InRange(s[..k]) && InRange(s[k + 1..]) <==> CutAt(BoundedRegex(), s, k)
    {
      PartAgreement(s[..k]);
      PartAgreement(s[k + 1..]);
    }
  }

  // ---------- The parser's checks ----------

  datatype Verdict = Accepted | BadKey | BadMeter | MeterOutOfRange

  /** The chain of checks on the two fields when they are present. */
  method CheckFields(key: Option<string>, meter: Option<string>, values: seq<string>) returns (v: Verdict)
    requires Enumerates(values)
    ensures v == BadKey <==> key.Some? && key.value !in values
    ensures v == Accepted <==>
              (key.Some? ==> key.value in values) && (meter.Some? ==> SchemaAcceptsMeter(meter.value))
  {
    hide Enumerates, SchemaAcceptsMeter, Matches, InRange, CountRegex, KeyRegex, CutAt;
    if key.Some? {
      KeyAgreement(values, key.value);
      if |key.value| > MAX_KEY || !Matches(KeyRegex(), key.value) {
        return BadKey;
      }
    }
    if meter.Some? {
      var s := meter.value;
      MeterAgreement(s);
      if !exists k | 0 <= k < |s| :: CutAt(CountRegex(), s, k) {
        return BadMeter;
      }
      var k :| 0 <= k < |s| && CutAt(CountRegex(), s, k);
      if !InRange(s[..k]) || !InRange(s[k + 1..]) {
        forall j | 0 <= j < |s| && CutAt(CountRegex(), s, j) ensures j == k {
          OneCut(s, j, k);
        }
        return MeterOutOfRange;
      }
    }
    return Accepted;
  }

  /** Digits hold no slash, so the submatches are determined. */
  lemma OneCut(s: string, j: nat, k: nat)
    requires CutAt(CountRegex(), s, j) && CutAt(CountRegex(), s, k)
    ensures j == k
  {
    hide CountRegex, Matches;
    CountShape(s[..j]);
    CountShape(s[..k]);
    assert forall i | 0 <= i < j :: IsDigit(s[..j][i]) && s[..j][i] == s[i];
    assert forall i | 0 <= i < k :: IsDigit(s[..k][i]) && s[..k][i] == s[i];
  }
}
