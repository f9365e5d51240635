/** What the alert rules report, before titles and messages are worded. */
module AlertFindings {
  import opened Totals
  import AlertManager

  datatype Finding = Finding(key: string, ruleId: string, severity: AlertManager.Severity, labels: map<string, string>)

  function KeyOf(f: Finding): string {
    f.key
  }

  ghost predicate DistinctKeys(findings: seq<Finding>) {
    Distinct(Map(findings, KeyOf))
  }

  /** No key of one list is a key of the other. */
  ghost predicate Apart(a: seq<Finding>, b: seq<Finding>) {
    forall f, g :: f in a && g in b ==> f.key != g.key
  }

  lemma DistinctAppend(a: seq<Finding>, b: seq<Finding>)
    ensures DistinctKeys(a + b) <==> DistinctKeys(a) && DistinctKeys(b) && Apart(a, b)
  {
    assert Map(a + b, KeyOf) == Map(a, KeyOf) + Map(b, KeyOf);
    if DistinctKeys(a) && DistinctKeys(b) && Apart(a, b) {
      StaysDistinct(a, b);
    }
    if DistinctKeys(a + b) {
      ComesApart(a, b);
    }
  }

  lemma StaysDistinct(a: seq<Finding>, b: seq<Finding>)
    requires DistinctKeys(a) && DistinctKeys(b) && Apart(a, b)
    ensures DistinctKeys(a + b)
  {
    var both := Map(a + b, KeyOf);
    forall i, j | 0 <= i < j < |both|
      ensures both[i] != both[j]
    {
      if j < |a| {
        assert both[i] == Map(a, KeyOf)[i] && both[j] == Map(a, KeyOf)[j];
      } else if i >= |a| {
        assert both[i] == Map(b, KeyOf)[i - |a|] && both[j] == Map(b, KeyOf)[j - |a|];
      } else {
        assert a[i] in a && b[j - |a|] in b;
      }
    }
  }

  lemma ComesApart(a: seq<Finding>, b: seq<Finding>)
    requires DistinctKeys(a + b)
    ensures DistinctKeys(a) && DistinctKeys(b) && Apart(a, b)
  {
    var both := Map(a + b, KeyOf);
    assert forall i :: 0 <= i < |a| ==> Map(a, KeyOf)[i] == both[i];
    assert forall i :: 0 <= i < |b| ==> Map(b, KeyOf)[i] == both[|a| + i];
    forall f, g | f in a && g in b
      ensures f.key != g.key
    {
      var i :| 0 <= i < |a| && a[i] == f;
      var j :| 0 <= j < |b| && b[j] == g;
      assert both[i] == f.key && both[|a| + j] == g.key;
    }
  }

  /** Where the separator does not occur in front, what is before and after its first occurrence is determined. */
  lemma SplitAtFirst(c: char, front: string, back: string, front': string, back': string)
    requires c !in front && c !in front'
    requires front + [c] + back == front' + [c] + back'
    ensures front == front' && back == back'
  {
    var s := front + [c] + back;
    NotInFront(c, front, back);
    NotInFront(c, front', back');
    assert s[|front|] == c && s[|front'|] == c;
    assert front == s[..|front|] && front' == s[..|front|];
    assert back == s[|front| + 1..] && back' == s[|front| + 1..];
  }

  lemma NotInFront(c: char, front: string, back: string)
    requires c !in front
    ensures forall i :: 0 <= i < |front| ==> (front + [c] + back)[i] != c
  {
  }
}
