/** The skill-gap engine shared by the web application and the stand-alone
    recommender script: strong-subject selection, skill derivation, career
    lookup and gap analysis. Every operation takes the lookup tables it uses
    as parameters, so that each program instantiates it with its own tables. */
module SkillGap {

  /** A lookup table from a subject or career name to a list of skill names. */
  type Table = map<string, seq<string>>

  /** One student's record: subject column name to score. */
  type Scores = map<string, int>

  /** The threshold used when the caller gives none (score >= 75 is strong). */
  const DefaultThreshold: int := 75

  predicate NoDuplicates(s: seq<string>) {
    forall i, j :: 0 <= i < j < |s| ==> s[i] != s[j]
  }

  /** The set of the elements of a list, as Python's `set(xs)`. */
  function SetOf(s: seq<string>): (r: set<string>)
    ensures forall x :: x in r <==> x in s
  {
    set x | x in s
  }

  /** `order` lists the keys of `table` once each, as a dictionary's
      iteration order does. */
  ghost predicate IsKeyOrder(order: seq<string>, table: Table) {
    NoDuplicates(order) && forall s :: s in table <==> s in order
  }

  /** Every subject of `subjects` has a score in `row`. */
  predicate HasScoresFor(row: Scores, subjects: seq<string>) {
    forall s :: s in subjects ==> s in row
  }

  // ---------------------------------------------------------------------
  // Sub-sequences
  // ---------------------------------------------------------------------

  /** `r` is obtained from `s` by deleting elements, keeping the order of
      the rest. */
  predicate IsSubsequence(r: seq<string>, s: seq<string>)
    decreases |s|
  {
    if r == [] then true
    else if s == [] then false
    else (r[|r| - 1] == s[|s| - 1] && IsSubsequence(r[..|r| - 1], s[..|s| - 1]))
         || IsSubsequence(r, s[..|s| - 1])
  }

  lemma {:induction false} SubsequenceMembers(r: seq<string>, s: seq<string>)
    requires IsSubsequence(r, s)
    ensures forall x :: x in r ==> x in s
    decreases |s|
  {
    if r != [] {
      var s' := s[..|s| - 1];
      assert s == s' + [s[|s| - 1]];
      if r[|r| - 1] == s[|s| - 1] && IsSubsequence(r[..|r| - 1], s') {
        SubsequenceMembers(r[..|r| - 1], s');
        assert r == r[..|r| - 1] + [r[|r| - 1]];
      } else {
        SubsequenceMembers(r, s');
      }
    }
  }

  lemma SubsequenceExtend(r: seq<string>, s: seq<string>, x: string)
    requires IsSubsequence(r, s)
    ensures IsSubsequence(r, s + [x])
    ensures IsSubsequence(r + [x], s + [x])
  {
    assert (s + [x])[..|s|] == s;
    assert (r + [x])[..|r|] == r;
  }

  /** A sub-sequence of a list without duplicates has none either. */
  lemma {:induction false} SubsequenceNoDuplicates(r: seq<string>, s: seq<string>)
    requires IsSubsequence(r, s) && NoDuplicates(s)
    ensures NoDuplicates(r)
    decreases |s|
  {
    if r != [] {
      var s' := s[..|s| - 1];
      assert NoDuplicates(s');
      if r[|r| - 1] == s[|s| - 1] && IsSubsequence(r[..|r| - 1], s') {
        var r' := r[..|r| - 1];
        SubsequenceNoDuplicates(r', s');
        SubsequenceMembers(r', s');
        assert s[|s| - 1] !in s';
        assert r == r' + [r[|r| - 1]];
      } else {
        SubsequenceNoDuplicates(r, s');
      }
    }
  }

  // ---------------------------------------------------------------------
  // Strong-subject selection
  // ---------------------------------------------------------------------

  /** The subjects of `keys`, in that order, whose score in `row` is at least
      `threshold` (inclusive). */
  function StrongAmong(keys: seq<string>, row: Scores, threshold: int): (r: seq<string>)
    requires HasScoresFor(row, keys)
    ensures forall x :: x in r <==> x in keys && row[x] >= threshold
    ensures IsSubsequence(r, keys)
    decreases |keys|
  {
    if keys == [] then []
    else
      var init, last := keys[..|keys| - 1], keys[|keys| - 1];
      assert keys == init + [last];
      var rest := StrongAmong(init, row, threshold);
      var r := rest + (if row[last] >= threshold then [last] else []);
      assert r != [] ==> r[..|r| - 1] == rest || r == rest;
      r
  }

  /** Selecting from one more key adds that key exactly when it is strong. */
  lemma StrongAmongSnoc(keys: seq<string>, key: string, row: Scores, threshold: int)
    requires HasScoresFor(row, keys + [key])
    ensures StrongAmong(keys + [key], row, threshold)
         == StrongAmong(keys, row, threshold) + (if row[key] >= threshold then [key] else [])
  {
    assert (keys + [key])[..|keys|] == keys;
  }

  /** `r` holds exactly the strong subjects of `keys`. */
  ghost predicate HoldsExactlyStrong(r: seq<string>, keys: seq<string>, row: Scores, threshold: int)
    requires HasScoresFor(row, keys)
  {
    forall x :: x in r <==> x in keys && row[x] >= threshold
  }

  /** Peeling the last key off a candidate selection when that key is
      strong: the candidate ends with it, and the rest is a candidate
      selection for the remaining keys. */
  lemma PeelStrongKey(ks: seq<string>, k: string, row: Scores, threshold: int, r: seq<string>)
    requires HasScoresFor(row, ks + [k]) && NoDuplicates(ks + [k])
    requires IsSubsequence(r, ks + [k]) && HoldsExactlyStrong(r, ks + [k], row, threshold)
    requires row[k] >= threshold
    ensures r != [] && r == r[..|r| - 1] + [k]
    ensures IsSubsequence(r[..|r| - 1], ks) && HoldsExactlyStrong(r[..|r| - 1], ks, row, threshold)
  {
    var keys := ks + [k];
    assert keys[..|keys| - 1] == ks && keys[|keys| - 1] == k;
    assert k !in ks by {
      assert NoDuplicates(keys);
    }
    assert k in r;
    if !(r[|r| - 1] == k && IsSubsequence(r[..|r| - 1], ks)) {
      SubsequenceMembers(r, ks);
      assert false;
    }
    var r' := r[..|r| - 1];
    assert r == r' + [k];
    SubsequenceNoDuplicates(r, keys);
    forall x
      ensures x in r' <==> x in ks && row[x] >= threshold
    {
      if x in r' {
        var i :| 0 <= i < |r'| && r'[i] == x;
        assert r[i] == x && r[|r| - 1] == k && i < |r| - 1;
        assert x != k && x in keys;
      }
      if x in ks && row[x] >= threshold {
        assert x in keys;
        var i :| 0 <= i < |r| && r[i] == x;
        assert i != |r| - 1;
        assert r'[i] == x;
      }
    }
  }

  /** Peeling the last key off a candidate selection when that key is not
      strong: the candidate is a candidate selection for the other keys. */
  lemma PeelWeakKey(ks: seq<string>, k: string, row: Scores, threshold: int, r: seq<string>)
    requires HasScoresFor(row, ks + [k])
    requires IsSubsequence(r, ks + [k]) && HoldsExactlyStrong(r, ks + [k], row, threshold)
    requires row[k] < threshold
    ensures IsSubsequence(r, ks) && HoldsExactlyStrong(r, ks, row, threshold)
  {
    var keys := ks + [k];
    assert keys[..|keys| - 1] == ks && keys[|keys| - 1] == k;
    if r != [] {
      assert r[|r| - 1] in r;
    }
  }

  /** The selection is the only order-preserving sub-list of the declared
      subjects that holds exactly the strong ones: any such list equals it. */
  lemma {:induction false} StrongAmongIsUnique(keys: seq<string>, row: Scores, threshold: int, r: seq<string>)
    requires HasScoresFor(row, keys) && NoDuplicates(keys)
    requires IsSubsequence(r, keys)
    requires forall x :: x in r <==> x in keys && row[x] >= threshold
    ensures r == StrongAmong(keys, row, threshold)
    decreases |keys|
  {
    if keys != [] {
      var ks, k := keys[..|keys| - 1], keys[|keys| - 1];
      assert keys == ks + [k];
      assert NoDuplicates(ks);
      StrongAmongSnoc(ks, k, row, threshold);
      if row[k] >= threshold {
        PeelStrongKey(ks, k, row, threshold, r);
        StrongAmongIsUnique(ks, row, threshold, r[..|r| - 1]);
      } else {
        PeelWeakKey(ks, k, row, threshold, r);
        StrongAmongIsUnique(ks, row, threshold, r);
      }
    }
  }

  // ---------------------------------------------------------------------
  // Skill derivation
  // ---------------------------------------------------------------------

  /** Being strong in `subject` gives the skill `skill`. */
  predicate Unlocks(table: Table, subject: string, skill: string) {
    subject in table && skill in table[subject]
  }

  /** The union of the skills `table` maps the given subjects to. */
  function DerivedSkills(table: Table, subjects: seq<string>): (r: set<string>)
    requires forall s :: s in subjects ==> s in table
    ensures subjects == [] ==> r == {}
    decreases |subjects|
  {
    if subjects == [] then {}
    else
      var init, last := subjects[..|subjects| - 1], subjects[|subjects| - 1];
      DerivedSkills(table, init) + SetOf(table[last])
  }

  /** A skill is derived exactly when some given subject unlocks it. */
  lemma {:induction false} DerivedSkillsMembership(table: Table, subjects: seq<string>)
    requires forall s :: s in subjects ==> s in table
    ensures forall k :: k in DerivedSkills(table, subjects) <==> exists s :: s in subjects && Unlocks(table, s, k)
    decreases |subjects|
  {
    if subjects != [] {
      var init, last := subjects[..|subjects| - 1], subjects[|subjects| - 1];
      assert subjects == init + [last];
      DerivedSkillsMembership(table, init);
      assert forall k :: k in SetOf(table[last]) ==> Unlocks(table, last, k);
    }
  }

  /** The loop of `derive_skills_from_subjects`: start from the empty set and
      add the skills of each subject in turn. */
  method DeriveSkillsFromSubjects(table: Table, subjects: seq<string>) returns (skills: set<string>)
    requires forall s :: s in subjects ==> s in table
    ensures skills == DerivedSkills(table, subjects)
  {
    skills := {};
    for i := 0 to |subjects|
      invariant skills == DerivedSkills(table, subjects[..i])
    {
      assert subjects[..i + 1][..i] == subjects[..i];
      skills := skills + SetOf(table[subjects[i]]);
    }
    assert subjects[..|subjects|] == subjects;
  }

  /** Deriving from one more subject adds exactly that subject's skills. */
  lemma DerivedSkillsSnoc(table: Table, subjects: seq<string>, subject: string)
    requires forall s :: s in subjects ==> s in table
    requires subject in table
    ensures DerivedSkills(table, subjects + [subject]) == DerivedSkills(table, subjects) + SetOf(table[subject])
  {
    assert (subjects + [subject])[..|subjects|] == subjects;
  }

  /** Derivation depends only on which subjects occur: reordering or
      repeating subjects gives the same skills. */
  lemma DerivedSkillsDependOnlyOnSubjectSet(table: Table, a: seq<string>, b: seq<string>)
    requires forall s :: s in a ==> s in table
    requires SetOf(a) == SetOf(b)
    ensures DerivedSkills(table, a) == DerivedSkills(table, b)
  {
    DerivedSkillsMembership(table, a);
    DerivedSkillsMembership(table, b);
    assert forall s :: s in a <==> s in b by {
      forall s ensures s in a <==> s in b {
        assert s in a <==> s in SetOf(a);
      }
    }
  }

  /** Deriving from two lists of subjects one after the other gives the
      union of the two derivations. */
  lemma DerivedSkillsOfConcat(table: Table, a: seq<string>, b: seq<string>)
    requires forall s :: s in a + b ==> s in table
    ensures DerivedSkills(table, a + b) == DerivedSkills(table, a) + DerivedSkills(table, b)
  {
    DerivedSkillsMembership(table, a);
    DerivedSkillsMembership(table, b);
    DerivedSkillsMembership(table, a + b);
  }

  // ---------------------------------------------------------------------
  // Career lookup and gap analysis
  // ---------------------------------------------------------------------

  /** Python's `careers.get(career, [])`. */
  function Lookup(careers: Table, career: string): (r: seq<string>)
    ensures career in careers ==> r == careers[career]
    ensures career !in careers ==> r == []
  {
    if career in careers then careers[career] else []
  }

  /** When no career of the table has an empty requirement list, an empty
      lookup result means exactly that the career is not in the table. */
  lemma EmptyLookupIffAbsent(careers: Table, career: string)
    requires forall c :: c in careers ==> careers[c] != []
    ensures Lookup(careers, career) == [] <==> career !in careers
  {
  }

  /** `set(required) - set(current)`: the required skills not yet held. */
  function MissingSkills(required: seq<string>, current: set<string>): (m: set<string>)
    ensures m <= SetOf(required)
    ensures m !! current
    ensures SetOf(required) <= m + current
  {
    SetOf(required) - current
  }

  /** Removing the missing skills from the required ones leaves exactly the
      required skills already held. */
  lemma MissingComplement(required: seq<string>, current: set<string>)
    ensures SetOf(required) - MissingSkills(required, current) == SetOf(required) * current
  {
  }

  /** With no current skill, every required skill is missing. */
  lemma NothingHeldMeansAllMissing(required: seq<string>)
    ensures MissingSkills(required, {}) == SetOf(required)
  {
  }

  /** The gap is empty exactly when every required skill is already held. */
  lemma NoGapIffAllHeld(required: seq<string>, current: set<string>)
    ensures MissingSkills(required, current) == {} <==> forall k :: k in required ==> k in current
  {
    if MissingSkills(required, current) == {} {
      forall k | k in required ensures k in current {
        assert k in SetOf(required);
      }
    }
  }

  // ---------------------------------------------------------------------
  // Case normalisation
  // ---------------------------------------------------------------------

  predicate IsUpper(c: char) {
    'A' <= c <= 'Z'
  }

  function LowerChar(c: char): (d: char)
    ensures !IsUpper(d)
    ensures IsUpper(c) ==> d as int == c as int + 32
    ensures !IsUpper(c) ==> d == c
  {
    if IsUpper(c) then (c as int + 32) as char else c
  }

  /** Python's `str.lower()` restricted to ASCII letters. */
  function Lower(s: string): (r: string)
    ensures |r| == |s|
    ensures forall i :: 0 <= i < |s| ==> r[i] == LowerChar(s[i])
    ensures forall i :: 0 <= i < |r| ==> !IsUpper(r[i])
  {
    seq(|s|, i requires 0 <= i < |s| => LowerChar(s[i]))
  }

  /** A string without upper-case letters is its own lower-case form. */
  lemma LowerKeepsLowerCase(s: string)
    requires forall i :: 0 <= i < |s| ==> !IsUpper(s[i])
    ensures Lower(s) == s
  {
  }

  /** Lower-casing is idempotent. */
  lemma LowerIdempotent(s: string)
    ensures Lower(Lower(s)) == Lower(s)
  {
    LowerKeepsLowerCase(Lower(s));
  }
}
