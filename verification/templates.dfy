/** `${KEY}` placeholder substitution, shared by the SQL executor
    (`SQLExecutor.apply_substitutions`) and the dashboard manager
    (the substitution loop of `create_dashboard_from_file`). */
module Templates {
  import opened Wrappers
  import opened Strings

  /** A Python dict of substitutions, in insertion order. */
  type Substitutions = seq<(string, string)>

  /** Python dict keys are distinct. */
  predicate DistinctKeys(subs: Substitutions) {
    forall i, j :: 0 <= i < j < |subs| ==> subs[i].0 != subs[j].0
  }

  /** The placeholder `${KEY}` that stands for `key` in a template. */
  function Placeholder(key: string): (p: string)
    ensures |p| == |key| + 3
  {
    "${" + key + "}"
  }

  /** The substitution loop: the keys are taken one after another in mapping
      order, and each replaces every occurrence of its placeholder in the text
      produced by the keys before it. */
  function ApplyEach(text: string, subs: Substitutions): (r: string)
    decreases |subs|
  {
    if |subs| == 0 then text
    else ApplyEach(Replace(text, Placeholder(subs[0].0), subs[0].1), subs[1..])
  }

  /** `apply_substitutions`: absent or empty substitutions return the text
      untouched. */
  function ApplySubstitutions(text: string, subs: Option<Substitutions>): (r: string)
    ensures subs.None? || subs == Some([]) ==> r == text
  {
    if subs.None? || |subs.value| == 0 then text else ApplyEach(text, subs.value)
  }

  /** Mapping order is sequential composition: substituting `a + b` is
      substituting `a`, then substituting `b` into the result. */
  lemma {:induction false} SubstitutionIsSequential(text: string, a: Substitutions, b: Substitutions)
    ensures ApplyEach(text, a + b) == ApplyEach(ApplyEach(text, a), b)
    decreases |a|
  {
    if |a| > 0 {
      assert (a + b)[0] == a[0];
      assert (a + b)[1..] == a[1..] + b;
      SubstitutionIsSequential(Replace(text, Placeholder(a[0].0), a[0].1), a[1..], b);
    } else {
      assert a + b == b;
    }
  }

  /** One key cuts the text at every non-overlapping occurrence of its
      placeholder and puts the value in each cut; the text between the cuts
      holds no placeholder for that key. */
  lemma SingleKeyReplacesEveryOccurrence(text: string, key: string, value: string)
    ensures var pieces := Split(text, Placeholder(key));
            && ApplySubstitutions(text, Some([(key, value)])) == Join(pieces, value)
            && Join(pieces, Placeholder(key)) == text
            && forall i :: 0 <= i < |pieces| ==> !Contains(pieces[i], Placeholder(key))
  {
    ReplaceIsJoinOfSplit(text, Placeholder(key), value);
    var subs := [(key, value)];
    assert subs[1..] == [];
    assert ApplyEach(text, subs) == Replace(text, Placeholder(key), value);
    JoinSplit(text, Placeholder(key));
    SplitPiecesAvoidSeparator(text, Placeholder(key));
  }

  /** A text in which `${` never occurs is returned unchanged by every
      substitution mapping. */
  lemma {:induction false} PlaceholderFreeTextUnchanged(text: string, subs: Substitutions)
    requires !Contains(text, "${")
    ensures ApplySubstitutions(text, Some(subs)) == text
    decreases |subs|
  {
    if |subs| > 0 {
      var key := subs[0].0;
      assert Placeholder(key) == "${" + (key + "}");
      if Contains(text, Placeholder(key)) {
        ContainsLongerPattern(text, "${", key + "}");
      }
      ReplaceAbsent(text, Placeholder(key), subs[0].1);
      PlaceholderFreeTextUnchanged(text, subs[1..]);
    }
  }

  /** A key without `$` or `}`, as every key the integration uses. */
  predicate PlainKey(key: string) {
    forall i :: 0 <= i < |key| ==> key[i] != '$' && key[i] != '}'
  }

  /** A text that starts with the placeholder of a plain key starts with the
      placeholder of no other plain key. */
  lemma PlaceholderAtStart(key: string, b: string, other: string)
    requires PlainKey(key) && PlainKey(other)
    ensures IsPrefix(Placeholder(other), Placeholder(key) + b) ==> key == other
  {
    var s, p := Placeholder(key) + b, Placeholder(other);
    if IsPrefix(p, s) {
      assert forall j :: 0 <= j < |p| ==> s[j] == p[j];
      assert forall j :: 2 <= j < |key| + 2 ==> s[j] == key[j - 2] != '}';
      assert forall j :: 2 <= j < |other| + 2 ==> p[j] == other[j - 2] != '}';
      assert s[|key| + 2] == '}' && p[|other| + 2] == '}';
      assert |other| == |key|;
      assert key == s[2..|key| + 2] == p[2..|other| + 2] == other;
    }
  }

  /** In a text whose only `$` is the one opening the placeholder of a plain
      key, the placeholder of no other plain key occurs. */
  lemma PlaceholderInTextIsOwn(a: string, key: string, b: string, other: string)
    requires PlainKey(key) && PlainKey(other)
    requires '$' !in a && '$' !in b
    ensures Contains(a + Placeholder(key) + b, Placeholder(other)) ==> key == other
  {
    var t, p := Placeholder(key) + b, Placeholder(other);
    assert a + Placeholder(key) + b == a + t;
    ContainsPastText(a, t, p);
    assert t[1..] == ("{" + key + "}") + b;
    assert forall j :: 0 <= j < |t[1..]| ==> t[1..][j] != '$';
    ContainsOnlyLeading(t, p);
    PlaceholderAtStart(key, b, other);
  }

  /** Keys whose placeholders the text lacks leave it unchanged. */
  lemma {:induction false} AbsentKeysUnchanged(text: string, subs: Substitutions)
    requires forall j :: 0 <= j < |subs| ==> !Contains(text, Placeholder(subs[j].0))
    ensures ApplyEach(text, subs) == text
    decreases |subs|
  {
    if |subs| > 0 {
      ReplaceAbsent(text, Placeholder(subs[0].0), subs[0].1);
      assert forall j :: 0 <= j < |subs[1..]| ==> subs[1..][j] == subs[j + 1];
      AbsentKeysUnchanged(text, subs[1..]);
    }
  }

  /** The keys before a plain one find none of their placeholders in a text
      whose only `$` opens that key's placeholder. */
  lemma EarlierKeysAbsent(a: string, b: string, subs: Substitutions, i: int)
    requires 0 <= i < |subs|
    requires DistinctKeys(subs)
    requires forall j :: 0 <= j <= i ==> PlainKey(subs[j].0)
    requires '$' !in a && '$' !in b
    ensures forall j :: 0 <= j < |subs[..i]| ==> !Contains(a + Placeholder(subs[i].0) + b, Placeholder(subs[..i][j].0))
  {
    forall j | 0 <= j < |subs[..i]|
      ensures !Contains(a + Placeholder(subs[i].0) + b, Placeholder(subs[..i][j].0))
    {
      assert subs[..i][j] == subs[j];
      PlaceholderInTextIsOwn(a, subs[i].0, b, subs[j].0);
    }
  }

  /** With distinct keys, a placeholder standing in a text that holds no
      other `$` becomes its key's value, provided the keys up to it are plain
      and the result holds no `${` for a later key to act on. */
  lemma PlaceholderBecomesValue(a: string, b: string, subs: Substitutions, i: int)
    requires 0 <= i < |subs|
    requires DistinctKeys(subs)
    requires forall j :: 0 <= j <= i ==> PlainKey(subs[j].0)
    requires '$' !in a && '$' !in b
    requires !Contains(a + subs[i].1 + b, "${")
    ensures ApplySubstitutions(a + Placeholder(subs[i].0) + b, Some(subs)) == a + subs[i].1 + b
  {
    var p, value := Placeholder(subs[i].0), subs[i].1;
    var text := a + p + b;
    var before, after := subs[..i], subs[i + 1..];
    EarlierKeysAbsent(a, b, subs, i);
    AbsentKeysUnchanged(text, before);
    assert subs == before + ([subs[i]] + after);
    SubstitutionIsSequential(text, before, [subs[i]] + after);
    assert ([subs[i]] + after)[1..] == after;
    ReplaceLoneOccurrence(a, p, b, value);
    PlaceholderFreeTextUnchanged(a + value + b, after);
    assert ApplyEach(a + value + b, after) == a + value + b;
  }
}
