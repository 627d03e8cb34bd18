/**
 The name of the blanket switch: `Blanket` prints it into a staged grant and
 `Stage` reads it back with `^blanket:(official|any)@rev([0-9]+)$` and a 64-bit
 unsigned parse whose error is ignored.
 */
module BlanketTag {
  import opened Basics
  import opened Text

  const MAX_UINT64 := 0xFFFF_FFFF_FFFF_FFFF

  datatype Mode = Off | Official | Any

  datatype Tag = Tag(mode: Mode, revision: nat)

  function ModeText(m: Mode): string {
    match m
    case Off => "off"
    case Official => "official"
    case Any => "any"
  }

  function Prefix(mode: Mode): string {
    "blanket:" + ModeText(mode) + "@rev"
  }

  function Print(mode: Mode, revision: nat): string {
    Prefix(mode) + Dec(revision)
  }

  /** Whether the switch covers a package, by mode. */
  predicate InScope(mode: Mode, official: bool) {
    mode == Any || (mode == Official && official)
  }

  /**
   What `Blanket` hands to an install: nothing when the store is locked or cannot be
   used, the package is out of scope or no operation is left to grant, else the
   operations and the tag.  The deployment may override the mode, never the revision.
   */
  function Grant(available: bool, documentMode: Mode, override: Option<Mode>, revision: nat, official: bool, plan: seq<string>)
    : (seq<string>, string)
  {
    var mode := if override.Some? then override.value else documentMode;
    if !available || !InScope(mode, official) || plan == [] then ([], "") else (plan, Print(mode, revision))
  }

  /** strconv.ParseUint(digits, 10, 64) with the error dropped: too large a value saturates. */
  function ParseUint64(digits: string): nat
    requires AllDigits(digits)
  {
    if Value(digits) <= MAX_UINT64 then Value(digits) else MAX_UINT64
  }

  function AfterPrefix(prefix: string, s: string): Option<string> {
    if |prefix| <= |s| && s[..|prefix|] == prefix then Some(s[|prefix|..]) else None
  }

  function ParseRevision(prefix: string, s: string): Option<nat> {
    var rest := AfterPrefix(prefix, s);
    if rest.Some? && rest.value != "" && AllDigits(rest.value) then Some(ParseUint64(rest.value)) else None
  }

  function Parse(s: string): Option<Tag> {
    var official := ParseRevision(Prefix(Official), s);
    var any := ParseRevision(Prefix(Any), s);
    if official.Some? then Some(Tag(Official, official.value))
    else if any.Some? then Some(Tag(Any, any.value))
    else None
  }

  /** The strings the pattern matches, written as the pattern reads. */
  ghost predicate Matches(s: string, mode: Mode, digits: string) {
    && digits != "" && AllDigits(digits)
    && ((mode == Official && s == "blanket:official@rev" + digits) || (mode == Any && s == "blanket:any@rev" + digits))
  }

  lemma PrefixesDiffer(s: string, digits: string)
    requires s == Prefix(Any) + digits
    ensures AfterPrefix(Prefix(Official), s).None?
  {
    assert Prefix(Any)[8] == 'a' && Prefix(Official)[8] == 'o';
    assert s[8] == 'a';
    if |Prefix(Official)| <= |s| {
      assert s[..|Prefix(Official)|][8] == 'a';
    }
  }

  lemma AfterPrefixIff(prefix: string, s: string, rest: string)
    ensures AfterPrefix(prefix, s) == Some(rest) <==> s == prefix + rest
  {
    if AfterPrefix(prefix, s) == Some(rest) {
      assert s == s[..|prefix|] + s[|prefix|..];
    }
  }

  lemma ParseMatches(s: string, mode: Mode, digits: string)
    requires Matches(s, mode, digits)
    ensures Parse(s) == Some(Tag(mode, ParseUint64(digits)))
  {
    hide AfterPrefix;
    AfterPrefixIff(Prefix(mode), s, digits);
    if mode == Any {
      PrefixesDiffer(s, digits);
    }
  }

  /** Parse accepts exactly the strings of the pattern and returns their two groups. */
  lemma ParseIsThePattern(s: string, mode: Mode, revision: nat)
    ensures Parse(s) == Some(Tag(mode, revision)) <==>
            exists digits :: Matches(s, mode, digits) && revision == ParseUint64(digits)
  {
    if Parse(s) == Some(Tag(mode, revision)) {
      hide AfterPrefix;
      var digits := AfterPrefix(Prefix(mode), s).value;
      AfterPrefixIff(Prefix(mode), s, digits);
      assert Matches(s, mode, digits);
    }
    if exists digits :: Matches(s, mode, digits) && revision == ParseUint64(digits) {
      var digits :| Matches(s, mode, digits) && revision == ParseUint64(digits);
      ParseMatches(s, mode, digits);
    }
  }

  /** Every tag that `Blanket` can print is read back to the same mode and revision. */
  lemma RoundTrip(mode: Mode, revision: nat)
    ensures mode != Off && revision <= MAX_UINT64 <==> Parse(Print(mode, revision)) == Some(Tag(mode, revision))
  {
    ValueOfDec(revision);
    if mode != Off && revision <= MAX_UINT64 {
      assert Matches(Print(mode, revision), mode, Dec(revision));
      ParseIsThePattern(Print(mode, revision), mode, revision);
    } else if Parse(Print(mode, revision)) == Some(Tag(mode, revision)) {
      ParseIsThePattern(Print(mode, revision), mode, revision);
    }
  }

  /** Distinct pairs print distinct tags. */
  lemma PrintInjective(m1: Mode, r1: nat, m2: Mode, r2: nat)
    requires Print(m1, r1) == Print(m2, r2)
    ensures m1 == m2 && r1 == r2
  {
    var s := Print(m1, r1);
    assert s[8] == ModeText(m1)[0] && s[8] == ModeText(m2)[0];
    assert s[10] == Prefix(m1)[10] && s[10] == Prefix(m2)[10];
    assert s[11] == Prefix(m1)[11] && s[11] == Prefix(m2)[11];
    if m1 == m2 {
      assert s[|Prefix(m1)|..] == Dec(r1) && s[|Prefix(m1)|..] == Dec(r2);
      DecInjective(r1, r2);
    }
  }

  /**
   What the switch hands out.  A package gets the operations that are left to grant
   exactly when the store can be used, something is left, and the mode in force, the
   deployment's or else the document's, is any, or official and so is the package; with
   them it gets a tag that `Stage` reads back to that mode and the document's revision.
   */
  lemma GrantedTagIsAccepted(available: bool, documentMode: Mode, override: Option<Mode>, revision: nat, official: bool,
                             plan: seq<string>)
    requires revision <= MAX_UINT64
    ensures var (ops, name) := Grant(available, documentMode, override, revision, official, plan);
            var mode := match override case Some(m) => m case None => documentMode;
            var granted := available && plan != [] && (mode == Any || (mode == Official && official));
            && ops == (if granted then plan else [])
            && Parse(name) == (if granted then Some(Tag(mode, revision)) else None)
            && (!granted ==> name == "")
  {
    var mode := if override.Some? then override.value else documentMode;
    RoundTrip(mode, revision);
    assert AfterPrefix(Prefix(Official), "").None? && AfterPrefix(Prefix(Any), "").None?;
  }
}
