/** The rewrite `get_triggers` applies to every trigger definition: each reference
    `on "<database>"."<schema>"."<table>" ` loses its database part and becomes
    `on "<schema>"."<table>" `.  The pattern is the regular expression
    `on "(.+?)"\."(.+?)"\."(.+?)" ` with case-insensitive matching, applied as
    `re.sub` does: leftmost match first, scanning on after each replacement. */
module Triggers {
  import opened Common
  import opened Catalog
  import opened Scope
  import opened Dump

  // ---------------------------------------------------------------------------
  // The pattern

  /** `on "` at position `p`, the two letters in either case. */
  predicate OnQuote(s: string, p: nat)
  {
    p + 4 <= |s| && LowerChar(s[p]) == 'o' && LowerChar(s[p + 1]) == 'n' && s[p + 2] == ' ' && s[p + 3] == '"'
  }

  /** `"."` at position `i`. */
  predicate Sep(s: string, i: nat)
  {
    i + 3 <= |s| && s[i] == '"' && s[i + 1] == '.' && s[i + 2] == '"'
  }

  /** `" ` at position `i`. */
  predicate Close(s: string, i: nat)
  {
    i + 2 <= |s| && s[i] == '"' && s[i + 1] == ' '
  }

  /** `(.+?)` taking the `l` characters from `q`: at least one, none a newline. */
  predicate Group(s: string, q: nat, l: nat)
  {
    1 <= l && q + l <= |s| && forall k :: q <= k < q + l ==> s[k] != '\n'
  }

  /** The pattern matches at `p` with groups of lengths `l1`, `l2`, `l3`. */
  predicate MatchesAt(s: string, p: nat, l1: nat, l2: nat, l3: nat)
  {
    && OnQuote(s, p)
    && Group(s, p + 4, l1) && Sep(s, p + 4 + l1)
    && Group(s, p + 7 + l1, l2) && Sep(s, p + 7 + l1 + l2)
    && Group(s, p + 10 + l1 + l2, l3) && Close(s, p + 10 + l1 + l2 + l3)
  }

  /** The order in which backtracking tries lazy groups: shorter first, the first group
      deciding, then the second, then the third. */
  predicate LexLeq(a1: nat, a2: nat, a3: nat, b1: nat, b2: nat, b3: nat)
  {
    a1 < b1 || (a1 == b1 && (a2 < b2 || (a2 == b2 && a3 <= b3)))
  }

  // ---------------------------------------------------------------------------
  // The matcher: each lazy group grows one character at a time until the rest of the
  // pattern succeeds, and gives up at a newline or at the end of the text.

  predicate Ok3(s: string, q: nat, l: nat) { Group(s, q, l) && Close(s, q + l) }

  function Find3(s: string, q: nat, l: nat): Option<nat>
    requires l >= 1
    decreases |s| - (q + l)
  {
    if q + l > |s| || s[q + l - 1] == '\n' then None
    else if Close(s, q + l) then Some(l)
    else Find3(s, q, l + 1)
  }

  predicate Ok2(s: string, q: nat, l: nat) { Group(s, q, l) && Sep(s, q + l) && Find3(s, q + l + 3, 1).Some? }

  function Find2(s: string, q: nat, l: nat): Option<nat>
    requires l >= 1
    decreases |s| - (q + l)
  {
    if q + l > |s| || s[q + l - 1] == '\n' then None
    else if Sep(s, q + l) && Find3(s, q + l + 3, 1).Some? then Some(l)
    else Find2(s, q, l + 1)
  }

  predicate Ok1(s: string, q: nat, l: nat) { Group(s, q, l) && Sep(s, q + l) && Find2(s, q + l + 3, 1).Some? }

  function Find1(s: string, q: nat, l: nat): Option<nat>
    requires l >= 1
    decreases |s| - (q + l)
  {
    if q + l > |s| || s[q + l - 1] == '\n' then None
    else if Sep(s, q + l) && Find2(s, q + l + 3, 1).Some? then Some(l)
    else Find1(s, q, l + 1)
  }

  /** A non-empty prefix of a group is a group: once a length fails, longer ones fail too. */
  lemma GroupExtends(s: string, q: nat, l: nat, m: nat)
    requires 1 <= l <= m && Group(s, q, m)
    ensures Group(s, q, l)
  {
  }

  /** `Find3` returns the shortest length from `l` on after which `" ` follows. */
  lemma {:induction false} Find3Least(s: string, q: nat, l: nat)
    requires l >= 1 && forall k :: q <= k < q + l - 1 && k < |s| ==> s[k] != '\n'
    ensures Find3(s, q, l).Some? ==> var r := Find3(s, q, l).value;
      l <= r && Ok3(s, q, r) && forall m :: l <= m < r ==> !Ok3(s, q, m)
    ensures Find3(s, q, l).None? ==> forall m :: l <= m ==> !Ok3(s, q, m)
    decreases |s| - (q + l)
  {
    if q + l > |s| || s[q + l - 1] == '\n' {
      forall m | l <= m ensures !Ok3(s, q, m) {
        if Ok3(s, q, m) {
          GroupExtends(s, q, l, m);
        }
      }
    } else if !Close(s, q + l) {
      Find3Least(s, q, l + 1);
    }
  }

  lemma {:induction false} Find2Least(s: string, q: nat, l: nat)
    requires l >= 1 && forall k :: q <= k < q + l - 1 && k < |s| ==> s[k] != '\n'
    ensures Find2(s, q, l).Some? ==> var r := Find2(s, q, l).value;
      l <= r && Ok2(s, q, r) && forall m :: l <= m < r ==> !Ok2(s, q, m)
    ensures Find2(s, q, l).None? ==> forall m :: l <= m ==> !Ok2(s, q, m)
    decreases |s| - (q + l)
  {
    if q + l > |s| || s[q + l - 1] == '\n' {
      forall m | l <= m ensures !Ok2(s, q, m) {
        if Ok2(s, q, m) {
          GroupExtends(s, q, l, m);
        }
      }
    } else if !(Sep(s, q + l) && Find3(s, q + l + 3, 1).Some?) {
      Find2Least(s, q, l + 1);
    }
  }

  lemma {:induction false} Find1Least(s: string, q: nat, l: nat)
    requires l >= 1 && forall k :: q <= k < q + l - 1 && k < |s| ==> s[k] != '\n'
    ensures Find1(s, q, l).Some? ==> var r := Find1(s, q, l).value;
      l <= r && Ok1(s, q, r) && forall m :: l <= m < r ==> !Ok1(s, q, m)
    ensures Find1(s, q, l).None? ==> forall m :: l <= m ==> !Ok1(s, q, m)
    decreases |s| - (q + l)
  {
    if q + l > |s| || s[q + l - 1] == '\n' {
      forall m | l <= m ensures !Ok1(s, q, m) {
        if Ok1(s, q, m) {
          GroupExtends(s, q, l, m);
        }
      }
    } else if !(Sep(s, q + l) && Find2(s, q + l + 3, 1).Some?) {
      Find1Least(s, q, l + 1);
    }
  }

  datatype Match = Match(l1: nat, l2: nat, l3: nat)

  /** The match the regular-expression engine finds at `p`, if any. */
  function MatchAt(s: string, p: nat): Option<Match>
  {
    if !OnQuote(s, p) then None
    else match Find1(s, p + 4, 1)
      case None => None
      case Some(l1) =>
        var l2 := Find2(s, p + 7 + l1, 1);
        if l2.None? then None
        else
          var l3 := Find3(s, p + 7 + l1 + l2.value + 3, 1);
          if l3.None? then None else Some(Match(l1, l2.value, l3.value))
  }

  /** What the matcher returns is a match of the pattern. */
  lemma MatchAtSound(s: string, p: nat)
    ensures MatchAt(s, p).Some? ==> var m := MatchAt(s, p).value; MatchesAt(s, p, m.l1, m.l2, m.l3)
  {
    if OnQuote(s, p) && Find1(s, p + 4, 1).Some? {
      var l1 := Find1(s, p + 4, 1).value;
      Find1Least(s, p + 4, 1);
      var l2 := Find2(s, p + 7 + l1, 1).value;
      Find2Least(s, p + 7 + l1, 1);
      Find3Least(s, p + 7 + l1 + l2 + 3, 1);
    }
  }

  /** Each group of a match is one the matcher would accept at that length. */
  lemma MatchGroups(s: string, p: nat, m1: nat, m2: nat, m3: nat)
    requires MatchesAt(s, p, m1, m2, m3)
    ensures Ok1(s, p + 4, m1) && Ok2(s, p + 7 + m1, m2) && Ok3(s, p + 10 + m1 + m2, m3)
  {
    Find3Least(s, p + 10 + m1 + m2, 1);
    assert Ok3(s, p + 10 + m1 + m2, m3);
    Find2Least(s, p + 7 + m1, 1);
    assert Ok2(s, p + 7 + m1, m2);
  }

  /** Wherever the pattern matches, the matcher finds a match, and the one it finds is
      the first that backtracking over the lazy groups reaches. */
  lemma MatchAtFirst(s: string, p: nat, m1: nat, m2: nat, m3: nat)
    requires MatchesAt(s, p, m1, m2, m3)
    ensures MatchAt(s, p).Some?
    ensures var m := MatchAt(s, p).value; LexLeq(m.l1, m.l2, m.l3, m1, m2, m3)
  {
    MatchGroups(s, p, m1, m2, m3);
    Find1Least(s, p + 4, 1);
    var l1 := Find1(s, p + 4, 1).value;
    assert l1 <= m1;
    Find2Least(s, p + 7 + l1, 1);
    var l2 := Find2(s, p + 7 + l1, 1).value;
    assert l1 == m1 ==> l2 <= m2;
    Find3Least(s, p + 10 + l1 + l2, 1);
    var l3 := Find3(s, p + 10 + l1 + l2, 1).value;
    assert l1 == m1 && l2 == m2 ==> l3 <= m3;
    assert MatchAt(s, p) == Some(Match(l1, l2, l3));
  }

  // ---------------------------------------------------------------------------
  // Substitution

  /** The replacement `on "\2"."\3" ` for the match `m` at `p`; its `on` is lower case
      whatever the case of the matched text. */
  function Replacement(s: string, p: nat, m: Match): string
    requires MatchesAt(s, p, m.l1, m.l2, m.l3)
  {
    var q2 := p + 7 + m.l1;
    var q3 := q2 + m.l2 + 3;
    "on \"" + s[q2..q2 + m.l2] + "\".\"" + s[q3..q3 + m.l3] + "\" "
  }

  function MatchEnd(p: nat, m: Match): nat
  {
    p + 12 + m.l1 + m.l2 + m.l3
  }

  /** `regex.sub` from position `p` on. */
  function Substitute(s: string, p: nat): string
    decreases |s| - p
  {
    if p >= |s| then []
    else match MatchAt(s, p)
      case None => [s[p]] + Substitute(s, p + 1)
      case Some(m) =>
        MatchAtSound(s, p);
        Replacement(s, p, m) + Substitute(s, MatchEnd(p, m))
  }

  function FixTriggerText(text: string): string
  {
    Substitute(text, 0)
  }

  /** The pattern does not match at `p`, whatever the lengths of its groups. */
  ghost predicate NoMatchAt(s: string, p: nat)
  {
    forall l1, l2, l3 :: !MatchesAt(s, p, l1, l2, l3)
  }

  /** Where the pattern does not match, one character is copied. */
  lemma SubstituteCopies(s: string, p: nat)
    requires p < |s| && NoMatchAt(s, p)
    ensures Substitute(s, p) == [s[p]] + Substitute(s, p + 1)
  {
    MatchAtSound(s, p);
    if MatchAt(s, p).Some? {
      assert false;
    }
  }

  lemma ConsAssoc(x: char, b: string, c: string)
    ensures [x] + (b + c) == ([x] + b) + c
  {
  }

  /** A scan that copies one character at each position from `p` to `i` copies the
      whole stretch. */
  lemma {:induction false} CopiesChain(f: (string, nat) -> string, s: string, p: nat, i: nat)
    requires p <= i <= |s|
    requires forall j :: p <= j < i ==> f(s, j) == [s[j]] + f(s, j + 1)
    ensures f(s, p) == s[p..i] + f(s, i)
    decreases i - p
  {
    if p < i {
      CopiesChain(f, s, p + 1, i);
      ConsAssoc(s[p], s[p + 1..i], f(s, i));
      assert [s[p]] + s[p + 1..i] == s[p..i];
    } else {
      assert s[p..i] == [];
    }
  }

  /** Text before the first match is copied unchanged. */
  lemma SubstituteSkips(s: string, p: nat, i: nat)
    requires p <= i <= |s|
    requires forall j :: p <= j < i ==> NoMatchAt(s, j)
    ensures Substitute(s, p) == s[p..i] + Substitute(s, i)
  {
    forall j | p <= j < i ensures Substitute(s, j) == [s[j]] + Substitute(s, j + 1) {
      SubstituteCopies(s, j);
    }
    CopiesChain(Substitute, s, p, i);
  }

  /** Text in which the pattern does not match from `p` on is copied unchanged. */
  lemma NoMatchCopies(s: string, p: nat)
    requires p <= |s|
    requires forall i, l1, l2, l3 :: p <= i < |s| ==> !MatchesAt(s, i, l1, l2, l3)
    ensures Substitute(s, p) == s[p..]
  {
    assert forall j :: p <= j < |s| ==> NoMatchAt(s, j);
    SubstituteSkips(s, p, |s|);
    assert s[p..|s|] + [] == s[p..];
  }

  /** A trigger without such a reference keeps its text. */
  lemma NoMatchUnchanged(text: string)
    requires forall i, l1, l2, l3 :: 0 <= i < |text| ==> !MatchesAt(text, i, l1, l2, l3)
    ensures FixTriggerText(text) == text
  {
    NoMatchCopies(text, 0);
  }

  /** `fix_view_name`: the trigger keeps its name and dependencies. */
  function FixViewName(d: ObjectDef): ObjectDef
  {
    ObjectDef(d.name, FixTriggerText(d.definition), d.dependencies)
  }

  /** `get_triggers`: the stored triggers, each with its text rewritten. */
  function GetTriggers(refuses: Event -> bool, answer: Stmt -> seq<Row>): (c: Collected)
    ensures var raw := ObjectDefinitions(refuses, answer, Package, TRIGGERS_QUERY);
      && c.run == raw.run && |c.defs| == |raw.defs|
      && forall i :: 0 <= i < |c.defs| ==>
           && c.defs[i].name == raw.defs[i].name
           && c.defs[i].dependencies == raw.defs[i].dependencies
           && c.defs[i].definition == FixTriggerText(raw.defs[i].definition)
  {
    var raw := ObjectDefinitions(refuses, answer, Package, TRIGGERS_QUERY);
    Collected(raw.run, seq(|raw.defs|, i requires 0 <= i < |raw.defs| => FixViewName(raw.defs[i])))
  }

  // ---------------------------------------------------------------------------
  // The unit test's trigger text

  const TRIGGER_TEXT := "... on \"db\".\"schema\".\"table\" ....."

  lemma FixtureThirdGroup()
    ensures Find3(TRIGGER_TEXT, 22, 1) == Some(5)
  {
    var s := TRIGGER_TEXT;
    assert !Close(s, 23) && !Close(s, 24) && !Close(s, 25) && !Close(s, 26) && Close(s, 27);
  }

  lemma FixtureSecondGroup()
    ensures Find2(TRIGGER_TEXT, 13, 1) == Some(6)
  {
    var s := TRIGGER_TEXT;
    FixtureThirdGroup();
    assert !Sep(s, 14) && !Sep(s, 15) && !Sep(s, 16) && !Sep(s, 17) && !Sep(s, 18) && Sep(s, 19);
  }

  lemma FixtureFirstGroup()
    ensures Find1(TRIGGER_TEXT, 8, 1) == Some(2)
  {
    var s := TRIGGER_TEXT;
    FixtureSecondGroup();
    assert !Sep(s, 9) && Sep(s, 10);
    assert Find1(s, 8, 2) == Some(2);
  }

  lemma FixtureMatch()
    ensures MatchAt(TRIGGER_TEXT, 4) == Some(Match(2, 6, 5))
  {
    var s := TRIGGER_TEXT;
    assert OnQuote(s, 4);
    FixtureFirstGroup();
    FixtureSecondGroup();
    FixtureThirdGroup();
  }

  /** The only `o` of the text is the one at position 4. */
  lemma FixtureOnlyOneOn(i: nat)
    requires i < |TRIGGER_TEXT| && i != 4
    ensures !OnQuote(TRIGGER_TEXT, i)
  {
  }

  lemma FixtureHead()
    ensures Substitute(TRIGGER_TEXT, 0) == "... " + Substitute(TRIGGER_TEXT, 4)
  {
    var s := TRIGGER_TEXT;
    forall j | 0 <= j < 4 ensures NoMatchAt(s, j) {
      FixtureOnlyOneOn(j);
    }
    SubstituteSkips(s, 0, 4);
    assert s[0..4] == "... ";
  }

  lemma FixtureTail()
    ensures Substitute(TRIGGER_TEXT, 29) == "....."
  {
    var s := TRIGGER_TEXT;
    forall j, l1, l2, l3 | 29 <= j < |s| ensures !MatchesAt(s, j, l1, l2, l3) {
      FixtureOnlyOneOn(j);
    }
    NoMatchCopies(s, 29);
    assert s[29..] == ".....";
  }

  /** Where the pattern matches, its replacement is written and scanning goes on
      after the match. */
  lemma SubstituteMatch(s: string, p: nat, m: Match)
    requires p < |s| && MatchAt(s, p) == Some(m)
    ensures MatchesAt(s, p, m.l1, m.l2, m.l3)
    ensures Substitute(s, p) == Replacement(s, p, m) + Substitute(s, MatchEnd(p, m))
  {
    MatchAtSound(s, p);
  }

  lemma FixtureReplacement(s: string)
    requires s == TRIGGER_TEXT && MatchesAt(s, 4, 2, 6, 5)
    ensures Replacement(s, 4, Match(2, 6, 5)) == "on \"schema\".\"table\" "
  {
    assert s[13..19] == "schema" && s[22..27] == "table";
  }

  lemma FixtureReference()
    ensures Substitute(TRIGGER_TEXT, 4) == "on \"schema\".\"table\" " + Substitute(TRIGGER_TEXT, 29)
  {
    FixtureMatch();
    SubstituteMatch(TRIGGER_TEXT, 4, Match(2, 6, 5));
    FixtureReplacement(TRIGGER_TEXT);
  }

  lemma ConcatFixture(a: string, b: string, c: string)
    requires a == "... " && b == "on \"schema\".\"table\" " && c == "....."
    ensures a + (b + c) == "... on \"schema\".\"table\" ....."
  {
  }

  /** The reference loses its database part; the rest of the text stays. */
  lemma FixtureRewrite()
    ensures FixTriggerText(TRIGGER_TEXT) == "... on \"schema\".\"table\" ....."
  {
    FixtureHead();
    FixtureReference();
    FixtureTail();
    ConcatFixture("... ", "on \"schema\".\"table\" ", ".....");
  }
}
