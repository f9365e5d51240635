/** The text of a chat notification (backend/internal/alert/notifier_webhook.go:92-126). */
module Labels {
  import opened Text
  import opened Totals
  import opened Sorting
  import opened AlertManager

  /** The keys of a label set, each once, in ascending order. */
  ghost predicate AreSortedKeys(labels: map<string, string>, keys: seq<string>) {
    Ascending(keys, StringLess) && forall k :: k in keys <==> k in labels
  }

  /** Label sets have one sorted list of keys, whatever order the map yields them in. */
  lemma SortedKeysAreUnique(labels: map<string, string>, a: seq<string>, b: seq<string>)
    requires AreSortedKeys(labels, a) && AreSortedKeys(labels, b)
    ensures a == b
  {
    StringLessIsTotal();
    AscendingIsUnique(a, b, StringLess);
  }

  /** The keys in whatever order the map yields them. */
  method Enumerate(labels: map<string, string>) returns (keys: seq<string>)
    ensures Distinct(keys) && forall k :: k in keys <==> k in labels
  {
    keys := [];
    var pending := labels.Keys;
    while pending != {}
      invariant pending <= labels.Keys
      invariant forall k :: k in keys <==> k in labels.Keys - pending
      invariant Distinct(keys)
      decreases pending
    {
      var k :| k in pending;
      DistinctOneMore(keys, k);
      keys := keys + [k];
      pending := pending - {k};
    }
  }

  lemma SortingKeys(labels: map<string, string>, keys: seq<string>)
    requires Distinct(keys) && forall k :: k in keys <==> k in labels
    ensures AreSortedKeys(labels, StableSort(keys, StringLess))
  {
    var sorted := StableSort(keys, StringLess);
    StringLessIsTotal();
    StableSortSorts(keys, StringLess);
    SortedAscends(keys, sorted);
    assert forall k :: k in sorted <==> k in multiset(keys);
  }

  lemma SortedAscends(keys: seq<string>, sorted: seq<string>)
    requires Distinct(keys) && multiset(sorted) == multiset(keys) && Sorted(sorted, StringLess)
    ensures Ascending(sorted, StringLess)
  {
    DistinctForgetsOrder(keys, sorted);
    forall i, j | 0 <= i < j < |sorted|
      ensures StringLess(sorted[i], sorted[j])
    {
      assert !StringLess(sorted[j], sorted[i]);
      StringLessTrichotomy(sorted[i], sorted[j]);
    }
  }

  method SortedKeys(labels: map<string, string>) returns (keys: seq<string>)
    ensures AreSortedKeys(labels, keys)
  {
    var found := Enumerate(labels);
    var a := new string[|found|](i requires 0 <= i < |found| => found[i]);
    assert a[..] == found;
    InsertionSort(a, StringLess);
    SortingKeys(labels, found);
    keys := a[..];
  }

  function SeverityName(severity: Severity): string {
    match severity
    case Info => "info"
    case Warning => "warning"
    case Critical => "critical"
  }

  const SEPARATOR := " \U{00B7} "

  function Pairs(labels: map<string, string>, keys: seq<string>): string
    requires forall k :: k in keys ==> k in labels
  {
    if keys == [] then ""
    else
      var n := |keys| - 1;
      var last := keys[n] + "=" + labels[keys[n]];
      if n == 0 then last else Pairs(labels, keys[..n]) + SEPARATOR + last
  }

  function Heading(alert: Alert): string {
    var line := "[" + ToUpper(SeverityName(alert.severity)) + "] " + alert.title;
    if alert.message == "" then line else line + "\n" + alert.message
  }

  /** The text, with the label pairs in the order of the given keys. */
  function TextOf(alert: Alert, keys: seq<string>): string
    requires forall k :: k in keys ==> k in alert.labels
  {
    if keys == [] then Heading(alert) else Heading(alert) + ("\n" + Pairs(alert.labels, keys))
  }

  /** The text begins with the severity in capitals and the title. */
  lemma TextBegins(alert: Alert, keys: seq<string>)
    requires forall k :: k in keys ==> k in alert.labels
    ensures alert.severity.Info? ==> "[INFO] " + alert.title <= TextOf(alert, keys)
    ensures alert.severity.Warning? ==> "[WARNING] " + alert.title <= TextOf(alert, keys)
    ensures alert.severity.Critical? ==> "[CRITICAL] " + alert.title <= TextOf(alert, keys)
  {
    assert ToUpper("info") == "INFO" && ToUpper("warning") == "WARNING" && ToUpper("critical") == "CRITICAL";
    assert "[" + "INFO" + "] " == "[INFO] " && "[" + "WARNING" + "] " == "[WARNING] " && "[" + "CRITICAL" + "] " == "[CRITICAL] ";
  }

  /** Every label stands in the list, as its key and its value. */
  lemma {:induction false} PairStands(labels: map<string, string>, keys: seq<string>, i: nat) returns (before: string, after: string)
    requires i < |keys| && forall k :: k in keys ==> k in labels
    ensures Pairs(labels, keys) == before + (keys[i] + "=" + labels[keys[i]]) + after
  {
    var n := |keys| - 1;
    var last := keys[n] + "=" + labels[keys[n]];
    if i < n {
      var b, a := PairStands(labels, keys[..n], i);
      before, after := b, a + (SEPARATOR + last);
      StandsOn(b, keys[i] + "=" + labels[keys[i]], a, SEPARATOR, last);
    } else if n == 0 {
      before, after := "", "";
    } else {
      before, after := Pairs(labels, keys[..n]) + SEPARATOR, "";
    }
  }

  lemma StandsOn(b: string, pair: string, a: string, c: string, d: string)
    ensures b + pair + a + c + d == b + pair + (a + (c + d))
  {
  }

  method PairsText(labels: map<string, string>, keys: seq<string>) returns (text: string)
    requires forall k :: k in keys ==> k in labels
    ensures text == Pairs(labels, keys)
  {
    text := "";
    var first := true;
    for i := 0 to |keys|
      invariant first <==> i == 0
      invariant text == Pairs(labels, keys[..i])
    {
      assert keys[..i + 1][..i] == keys[..i];
      if !first {
        text := text + SEPARATOR;
      }
      var pair := keys[i] + "=" + labels[keys[i]];
      text := text + pair;
      first := false;
    }
    assert keys[..|keys|] == keys;
  }

  /** The text is a function of the alert: it lists the labels in ascending order, independent of map order. */
  method SlackText(alert: Alert) returns (text: string)
    ensures exists keys :: AreSortedKeys(alert.labels, keys) && text == TextOf(alert, keys)
  {
    text := Heading(alert);
    var keys := SortedKeys(alert.labels);
    assert keys == [] || keys[0] in alert.labels;
    if |alert.labels| > 0 {
      var k :| k in alert.labels;
      assert k in keys;
      var pairs := PairsText(alert.labels, keys);
      text := text + ("\n" + pairs);
    }
  }

  /** So the same alert always reads the same. */
  lemma SlackTextIsDetermined(alert: Alert, a: seq<string>, b: seq<string>)
    requires AreSortedKeys(alert.labels, a) && AreSortedKeys(alert.labels, b)
    ensures TextOf(alert, a) == TextOf(alert, b)
  {
    SortedKeysAreUnique(alert.labels, a, b);
  }
}
