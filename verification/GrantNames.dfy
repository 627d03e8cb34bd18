/**
 What the rules of the grant document mean: the names they admit, as the patterns
 spell them, and a valid document, field by field.
 */
module GrantNames {
  import opened Basics
  import opened Text
  import opened Sorting
  import opened GrantDocument

  // ---------- Names ----------

  /** `[a-z]+` */
  predicate IsWord(w: string) {
    w != "" && forall i | 0 <= i < |w| :: 'a' <= w[i] <= 'z'
  }

  predicate AreWords(words: seq<string>) {
    words != [] && forall k | 0 <= k < |words| :: IsWord(words[k])
  }

  /** The words with a dot between any two. */
  function Dotted(words: seq<string>): string
    requires words != []
  {
    if |words| == 1 then words[0] else Dotted(words[..|words| - 1]) + "." + words[|words| - 1]
  }

  /** Letters and dots, no dot in front and no two dots side by side. */
  predicate WordsSoFar(s: string) {
    && s != "" && s[0] != '.' && (forall i | 0 <= i < |s| :: IsLower(s[i]) || s[i] == '.')
    && forall i | 0 < i < |s| :: !(s[i - 1] == '.' && s[i] == '.')
  }

  lemma {:induction false} DottedIsWords(words: seq<string>)
    requires AreWords(words)
    ensures WordsSoFar(Dotted(words)) && Dotted(words)[|Dotted(words)| - 1] != '.'
    ensures '.' in Dotted(words) <==> |words| >= 2
  {
    if |words| > 1 {
      var front, last := words[..|words| - 1], words[|words| - 1];
      assert IsWord(last);
      DottedIsWords(front);
      var s := Dotted(words);
      assert s == Dotted(front) + "." + last;
      assert s[|Dotted(front)|] == '.';
    } else {
      assert IsWord(words[0]);
    }
  }

  /** Splitting at the last dot. */
  lemma {:induction false} WordsOf(s: string) returns (words: seq<string>)
    requires WordsSoFar(s) && s[|s| - 1] != '.'
    ensures AreWords(words) && Dotted(words) == s
    decreases |s|
  {
    if forall i | 0 <= i < |s| :: s[i] != '.' {
      words := [s];
      assert IsWord(s);
    } else {
      var k := LastDot(s);
      var front, last := s[..k], s[k + 1..];
      assert s == front + "." + last;
      assert forall i | 0 <= i < k :: front[i] == s[i];
      var before := WordsOf(front);
      words := before + [last];
      assert words[..|words| - 1] == before;
      assert IsWord(last);
    }
  }

  lemma {:induction false} LastDot(s: string) returns (k: nat)
    requires exists i | 0 <= i < |s| :: s[i] == '.'
    ensures k < |s| && s[k] == '.' && forall i | k < i < |s| :: s[i] != '.'
  {
    k := |s| - 1;
    if s[k] != '.' {
      var front := s[..|s| - 1];
      var i :| 0 <= i < |s| && s[i] == '.';
      assert front[i] == '.';
      k := LastDot(front);
      assert forall i | k < i < |front| :: s[i] == front[i];
    }
  }

  lemma LettersAndDots(s: string)
    ensures (forall c | c in s :: IsLower(c) || c == '.') <==> forall i | 0 <= i < |s| :: IsLower(s[i]) || s[i] == '.'
  {
    if forall c | c in s :: IsLower(c) || c == '.' {
      forall i | 0 <= i < |s| ensures IsLower(s[i]) || s[i] == '.' {
        assert s[i] in s;
      }
    }
  }

  /** An operation name is two or more words of lower-case letters with a dot between any two: `^[a-z]+(\.[a-z]+)+$`. */
  lemma OpNameIff(s: string)
    ensures IsOpName(s) <==> exists words :: AreWords(words) && |words| >= 2 && s == Dotted(words)
  {
    LettersAndDots(s);
    if IsOpName(s) {
      var words := WordsOf(s);
      DottedIsWords(words);
    }
    if words :| AreWords(words) && |words| >= 2 && s == Dotted(words) {
      DottedIsWords(words);
      assert s[0] in s && s[|s| - 1] in s;
    }
  }

  /** A deny prefix is one or more such words, each followed by a dot: `^[a-z]+\.([a-z]+\.)*$`. */
  lemma PrefixIff(s: string)
    ensures IsPrefix(s) <==> exists words :: AreWords(words) && s == Dotted(words) + "."
  {
    LettersAndDots(s);
    if IsPrefix(s) {
      var front := s[..|s| - 1];
      assert s == front + ".";
      assert front != "" && forall i | 0 <= i < |front| :: front[i] == s[i];
      assert front[|front| - 1] != '.';
      var words := WordsOf(front);
    }
    if words :| AreWords(words) && s == Dotted(words) + "." {
      DottedIsWords(words);
      assert s[0] == Dotted(words)[0];
    }
  }

  /** An add-on ID starts with a letter or digit and goes on with letters, digits and hyphens: `^[a-z0-9][a-z0-9-]*$`. */
  lemma AddonIdIff(id: string)
    ensures IsAddonId(id) <==>
              && |id| >= 1 && ('a' <= id[0] <= 'z' || '0' <= id[0] <= '9')
              && forall i | 1 <= i < |id| :: 'a' <= id[i] <= 'z' || '0' <= id[i] <= '9' || id[i] == '-'
  {
    if IsAddonId(id) {
      forall i | 0 <= i < |id| ensures IsLower(id[i]) || IsDigit(id[i]) || id[i] == '-' {
        assert id[i] in id;
      }
    }
  }

  /** A text has at most 256 characters, none of them a control character. */
  lemma TextIff(s: string)
    ensures ValidText(s) <==> |s| <= 256 && forall i | 0 <= i < |s| :: 0x20 <= s[i] as int && s[i] as int != 0x7F
  {
    if ValidText(s) {
      forall i | 0 <= i < |s| ensures ' ' <= s[i] && s[i] != '\U{7F}' {
        assert s[i] in s;
      }
    }
  }

  /** An operation ID is a text of 1 to 128 characters without a space at either end. */
  lemma OperationIdIff(id: string)
    ensures ValidOperationId(id) <==>
              && 1 <= |id| <= 128 && id[0] != ' ' && id[|id| - 1] != ' '
              && forall i | 0 <= i < |id| :: 0x20 <= id[i] as int && id[i] as int != 0x7F
  {
    TextIff(id);
  }

  // ---------- A valid document ----------

  /** The record of one grant, in a document whose switch is at `revision`. */
  predicate GoodGrant(op: OpGrant, revision: nat) {
    && IsOpName(op.name) && ValidText(op.actor) && ValidText(op.version)
    && (op.operationId != "" ==> ValidOperationId(op.operationId))
    && (op.source == Blanket ==> 1 <= op.blanketRevision <= revision)
    && (op.source != Blanket ==> op.blanketRevision == 0)
  }

  /** An entry of the document: 1 to 32 grants of one identity, under different names. */
  predicate GoodEntryOf(id: string, e: AddonGrants, revision: nat) {
    && IsAddonId(id) && e.identity != "" && ValidText(e.identity) && ValidOperationId(e.operationId)
    && 1 <= |e.ops| <= 32
    && (forall i | 0 <= i < |e.ops| :: GoodGrant(e.ops[i], revision))
    && forall i, j | 0 <= i < j < |e.ops| :: e.ops[i].name != e.ops[j].name
  }

  /** A remembered add-on: at most 32 different operation names. */
  predicate GoodHint(id: string, names: seq<string>) {
    && IsAddonId(id) && |names| <= 32
    && (forall i | 0 <= i < |names| :: IsOpName(names[i]))
    && forall i, j | 0 <= i < j < |names| :: names[i] != names[j]
  }

  /** A deny list, for an add-on or "*" for all: at most 32 different names or prefixes, or "*" alone. */
  predicate GoodDeny(id: string, entries: seq<string>) {
    && (id == "*" || IsAddonId(id)) && |entries| <= 32
    && (entries == ["*"] || forall i | 0 <= i < |entries| :: entries[i] != "*" && (IsPrefix(entries[i]) || IsOpName(entries[i])))
    && forall i, j | 0 <= i < j < |entries| :: entries[i] != entries[j]
  }

  /** A document is valid exactly when its parts are, there are at most 128 of each kind, and the mode is one of three. */
  lemma DocumentIff(s: Snapshot)
    ensures ValidSnapshot(s) <==>
              && s.blanket.mode in {"off", "official", "any"} && ValidText(s.blanket.changedBy)
              && |s.grants| <= 128 && |s.hints| <= 128 && |s.deny| <= 128
              && (forall id | id in s.grants :: GoodEntryOf(id, s.grants[id], s.blanketRevision))
              && (forall id | id in s.hints :: GoodHint(id, s.hints[id]))
              && forall id | id in s.deny :: GoodDeny(id, s.deny[id])
  {
    forall id | id in s.grants ensures ValidEntry(id, s.grants[id], s.blanketRevision) <==> GoodEntryOf(id, s.grants[id], s.blanketRevision) {
      EntryIff(id, s.grants[id], s.blanketRevision);
    }
    forall id | id in s.hints ensures ValidHint(id, s.hints[id]) <==> GoodHint(id, s.hints[id]) {
      HintIff(id, s.hints[id]);
    }
    forall id | id in s.deny ensures ValidDenyEntries(id, s.deny[id]) <==> GoodDeny(id, s.deny[id]) {
      DenyIff(id, s.deny[id]);
    }
    hide ValidEntry, GoodEntryOf, ValidHint, GoodHint, ValidDenyEntries, GoodDeny, ValidText;
  }

  lemma EntryIff(id: string, e: AddonGrants, revision: nat)
    ensures ValidEntry(id, e, revision) <==> GoodEntryOf(id, e, revision)
  {
    hide IsOpName, ValidText, ValidOperationId, IsAddonId;
    if ValidEntry(id, e, revision) {
      forall i | 0 <= i < |e.ops| ensures GoodGrant(e.ops[i], revision) {
        assert ValidOp(e.ops[i], revision);
      }
      forall i, j | 0 <= i < j < |e.ops| ensures e.ops[i].name != e.ops[j].name {
        assert NameOf(e.ops[i]) != NameOf(e.ops[j]);
      }
    }
    if GoodEntryOf(id, e, revision) {
      forall op | op in e.ops ensures ValidOp(op, revision) {
        var i :| 0 <= i < |e.ops| && e.ops[i] == op;
        assert GoodGrant(e.ops[i], revision);
      }
    }
  }

  lemma HintIff(id: string, names: seq<string>)
    ensures ValidHint(id, names) <==> GoodHint(id, names)
  {
    hide IsOpName, IsAddonId;
    if ValidHint(id, names) {
      forall i | 0 <= i < |names| ensures IsOpName(names[i]) {
        assert names[i] in names;
      }
      forall i, j | 0 <= i < j < |names| ensures names[i] != names[j] {
        assert Self(names[i]) != Self(names[j]);
      }
    }
  }

  lemma DenyIff(id: string, entries: seq<string>)
    ensures ValidDenyEntries(id, entries) <==> GoodDeny(id, entries)
  {
    hide IsOpName, IsAddonId, IsPrefix;
    if ValidDenyEntries(id, entries) {
      forall i, j | 0 <= i < j < |entries| ensures entries[i] != entries[j] {
        assert Self(entries[i]) != Self(entries[j]);
      }
      forall i | 0 <= i < |entries| ensures entries[i] == "*" || IsPrefix(entries[i]) || IsOpName(entries[i]) {
        assert entries[i] in entries;
      }
      if "*" in entries {
        assert entries == [entries[0]];
      }
    }
    if GoodDeny(id, entries) && entries != ["*"] {
      assert "*" !in entries;
    }
  }
}
