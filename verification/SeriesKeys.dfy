/** Series identity packed into a bucket name and parsed back out of it
    (internal/history/history.go, seriesKeyFor, parseSeriesKey and matchesFilter). */
module SeriesKeys {
  import opened Text
  import opened Hardware

  datatype SeriesId = SeriesId(metric: string, node: string, tier: string, device: string, labels: map<string, string>)

  function IdOf(s: Sample): SeriesId {
    SeriesId(s.metric, s.node, s.tier, s.device, s.labels)
  }

  // ----- the printer -----

  function LabelPart(name: string, value: string): string { name + "=" + value }

  function LabelParts(labels: map<string, string>, names: seq<string>): (parts: seq<string>)
    requires forall n :: n in names ==> n in labels
    ensures |parts| == |names|
    ensures forall i :: 0 <= i < |names| ==> parts[i] == LabelPart(names[i], labels[names[i]])
  {
    seq(|names|, i requires 0 <= i < |names| => LabelPart(names[i], labels[names[i]]))
  }

  /** The bucket name of a series: identity fields, then labels by ascending name. */
  ghost function KeyOf(id: SeriesId): string {
    Join([id.metric, id.node, id.tier, id.device] + LabelParts(id.labels, Sorted(id.labels.Keys)), NUL)
  }

  /** sort.Strings, one insertion at a time. */
  method SortStrings(names: seq<string>) returns (sorted: seq<string>)
    requires forall i, j :: 0 <= i < j < |names| ==> names[i] != names[j]
    ensures StrictlySorted(sorted)
    ensures forall n :: n in sorted <==> n in names
  {
    sorted := [];
    for i := 0 to |names|
      invariant StrictlySorted(sorted)
      invariant forall n :: n in sorted <==> n in names[..i]
    {
      var j := 0;
      while j < |sorted| && Less(sorted[j], names[i])
        invariant j <= |sorted|
        invariant forall k :: 0 <= k < j ==> Less(sorted[k], names[i])
      {
        j := j + 1;
      }
      ghost var tail := sorted[j..];
      InsertKeepsOrder(sorted, j, names[i]);
      assert forall n :: n in sorted <==> n in sorted[..j] || n in sorted[j..];
      assert names[..i + 1] == names[..i] + [names[i]];
      sorted := sorted[..j] + [names[i]] + sorted[j..];
    }
    assert names[..|names|] == names;
  }

  lemma InsertKeepsOrder(sorted: seq<string>, j: nat, name: string)
    requires StrictlySorted(sorted) && j <= |sorted| && name !in sorted
    requires forall k :: 0 <= k < j ==> Less(sorted[k], name)
    requires j < |sorted| ==> !Less(sorted[j], name)
    ensures StrictlySorted(sorted[..j] + [name] + sorted[j..])
  {
    if j < |sorted| {
      LessTotal(sorted[j], name);
      forall k | j < k < |sorted| ensures Less(name, sorted[k]) {
        LessTransitive(name, sorted[j], sorted[k]);
      }
    }
  }

  /** The keys of a map, walked in an arbitrary order. */
  method CollectNames<V>(labels: map<string, V>) returns (names: seq<string>)
    ensures forall n :: n in names <==> n in labels
    ensures forall i, j :: 0 <= i < j < |names| ==> names[i] != names[j]
  {
    names := [];
    var rest := labels.Keys;
    while rest != {}
      invariant rest <= labels.Keys
      invariant forall n :: n in names <==> n in labels && n !in rest
      invariant forall i, j :: 0 <= i < j < |names| ==> names[i] != names[j]
      decreases rest
    {
      var k :| k in rest;
      names := names + [k];
      rest := rest - {k};
    }
  }

  /** The key of a sample begins with its metric, node, tier and device, in that order; and when
      its fields are clean, the key can be parsed and gives each of its five fields back.
      Whatever order the label map is walked in, the key is the same. */
  method SeriesKeyFor(s: Sample) returns (key: string)
    ensures key == KeyOf(IdOf(s))
    ensures s.metric + [NUL] + s.node + [NUL] + s.tier + [NUL] + s.device <= key
    ensures CleanFields(s) ==>
              && IsKey(key)
              && Parse(key).metric == s.metric && Parse(key).node == s.node && Parse(key).tier == s.tier
              && Parse(key).device == s.device && Parse(key).labels == s.labels
  {
    hide CleanFields, Parse, IsKey, KeyOf, Sorted, Less, StrictlySorted, KeyUpTo;
    var names := CollectNames(s.labels);
    var sorted := SortStrings(names);
    SortedUnique(sorted, Sorted(s.labels.Keys));
    KeyEnds(s, sorted);
    key := s.metric + [NUL] + s.node + [NUL] + s.tier + [NUL] + s.device;
    for i := 0 to |sorted|
      invariant key == KeyUpTo(s, sorted, i)
    {
      var k := sorted[i];
      OneLabelMore(s, sorted, i, key);
      key := key + [NUL] + k + "=" + s.labels[k];
    }
    KeyBegins(s);
    if CleanFields(s) { KeyGivesFieldsBack(s); }
  }

  /** The key with the first i labels printed. */
  ghost function KeyUpTo(s: Sample, names: seq<string>, i: nat): string
    requires i <= |names| && forall n :: n in names ==> n in s.labels
  {
    Join([s.metric, s.node, s.tier, s.device] + LabelParts(s.labels, names[..i]), NUL)
  }

  lemma KeyEnds(s: Sample, names: seq<string>)
    requires names == Sorted(s.labels.Keys)
    ensures KeyUpTo(s, names, 0) == s.metric + [NUL] + s.node + [NUL] + s.tier + [NUL] + s.device
    ensures KeyUpTo(s, names, |names|) == KeyOf(IdOf(s))
  {
    hide Join, Sorted;
    JoinOfFour(s.metric, s.node, s.tier, s.device);
    var fields := [s.metric, s.node, s.tier, s.device];
    assert fields + LabelParts(s.labels, names[..0]) == fields;
    assert names[..|names|] == names;
  }

  lemma OneLabelMore(s: Sample, names: seq<string>, i: nat, key: string)
    requires i < |names| && (forall n :: n in names ==> n in s.labels) && key == KeyUpTo(s, names, i)
    ensures key + [NUL] + names[i] + "=" + s.labels[names[i]] == KeyUpTo(s, names, i + 1)
  {
    hide Join, LabelParts, LabelPart;
    var fields, k, before := [s.metric, s.node, s.tier, s.device], names[i], LabelParts(s.labels, names[..i]);
    LabelPartsSnoc(s.labels, names, i);
    JoinAppend(fields + before, LabelPart(k, s.labels[k]), NUL);
    assert fields + (before + [LabelPart(k, s.labels[k])]) == fields + before + [LabelPart(k, s.labels[k])];
    LabelPartIs(k, s.labels[k], key);
  }

  lemma LabelPartIs(name: string, value: string, key: string)
    ensures key + [NUL] + LabelPart(name, value) == key + [NUL] + name + "=" + value
  {}

  lemma LabelPartsSnoc(labels: map<string, string>, names: seq<string>, i: nat)
    requires forall n :: n in names ==> n in labels
    requires i < |names|
    ensures LabelParts(labels, names[..i + 1]) ==
            LabelParts(labels, names[..i]) + [LabelPart(names[i], labels[names[i]])]
  {}

  lemma {:induction false} JoinAppend(parts: seq<string>, p: string, sep: char)
    requires parts != []
    ensures Join(parts + [p], sep) == Join(parts, sep) + [sep] + p
  {
    if |parts| > 1 {
      JoinAppend(parts[1..], p, sep);
      assert (parts + [p])[1..] == parts[1..] + [p];
    } else {
      assert (parts + [p])[1..] == [p];
    }
  }

  // ----- the parser -----

  function ParseLabels(parts: seq<string>): map<string, string> {
    if parts == [] then map[]
    else
      var before, p := ParseLabels(parts[..|parts| - 1]), parts[|parts| - 1];
      var i := IndexOf(p, '=');
      if i < |p| then before[p[..i] := p[i + 1..]] else before
  }

  /** A name the parser can index: at least four NUL-separated parts. */
  predicate IsKey(key: string) { |Split(key, NUL)| >= 4 }

  function Parse(key: string): SeriesId
    requires IsKey(key)
  {
    var parts := Split(key, NUL);
    SeriesId(parts[0], parts[1], parts[2], parts[3], ParseLabels(parts[4..]))
  }

  method ParseSeriesKey(key: string) returns (id: SeriesId)
    requires IsKey(key)
    ensures id == Parse(key)
  {
    var parts := Split(key, NUL);
    var labels: map<string, string> := map[];
    if |parts| > 4 {
      for i := 4 to |parts|
        invariant labels == ParseLabels(parts[4..i])
      {
        assert parts[4..i + 1][..i - 4] == parts[4..i];
        var p := parts[i];
        var j := IndexOf(p, '=');
        if j < |p| {
          labels := labels[p[..j] := p[j + 1..]];
        }
      }
      assert parts[4..|parts|] == parts[4..];
    }
    id := SeriesId(parts[0], parts[1], parts[2], parts[3], labels);
  }

  // ----- they are inverse exactly on well-formed identities -----

  ghost predicate WellFormed(id: SeriesId) {
    && NulFree(id.metric) && NulFree(id.node) && NulFree(id.tier) && NulFree(id.device)
    && forall n :: n in id.labels ==> NulFree(n) && '=' !in n && NulFree(id.labels[n])
  }

  lemma {:induction false} SplitAtLeast(parts: seq<string>, sep: char)
    requires parts != []
    ensures |Split(Join(parts, sep), sep)| >= |parts|
  {
    if |parts| > 1 {
      SplitAtLeast(parts[1..], sep);
      SplitAcross(parts[0], Join(parts[1..], sep), sep);
    }
  }

  lemma {:induction false} SplitAcross(p: string, rest: string, sep: char)
    ensures |Split(p + [sep] + rest, sep)| >= 1 + |Split(rest, sep)|
  {
    var s := p + [sep] + rest;
    if p == [] {
      assert s == [sep] + rest && s[1..] == rest;
    } else {
      SplitAcross(p[1..], rest, sep);
      assert s[1..] == p[1..] + [sep] + rest;
    }
  }

  lemma KeyIsKey(id: SeriesId)
    ensures IsKey(KeyOf(id))
  {
    SplitAtLeast([id.metric, id.node, id.tier, id.device] + LabelParts(id.labels, Sorted(id.labels.Keys)), NUL);
  }

  lemma ParseLabelsSnoc(parts: seq<string>, name: string, value: string)
    requires '=' !in name
    ensures ParseLabels(parts + [LabelPart(name, value)]) == ParseLabels(parts)[name := value]
  {
    var p := LabelPart(name, value);
    assert p[..|name|] == name && p[|name| + 1..] == value;
    IndexOfFirst(p, '=', |name|);
    assert (parts + [p])[..|parts|] == parts;
  }

  lemma {:induction false} ParsePrintedLabels(labels: map<string, string>, names: seq<string>)
    requires forall n :: n in names ==> n in labels && '=' !in n
    ensures ParseLabels(LabelParts(labels, names)) == map n | n in names :: labels[n]
  {
    if names == [] {
      NoLabels(labels);
    } else {
      hide ParseLabels, LabelPart, LabelParts;
      var before, n := names[..|names| - 1], names[|names| - 1];
      assert names == before + [n];
      ParsePrintedLabels(labels, before);
      LastLabelPart(labels, names);
      ParseLabelsSnoc(LabelParts(labels, before), n, labels[n]);
    }
  }

  lemma NoLabels(labels: map<string, string>)
    ensures ParseLabels(LabelParts(labels, [])) == map[]
  {}

  lemma LastLabelPart(labels: map<string, string>, names: seq<string>)
    requires names != [] && forall n :: n in names ==> n in labels
    ensures var before, n := names[..|names| - 1], names[|names| - 1];
            LabelParts(labels, names) == LabelParts(labels, before) + [LabelPart(n, labels[n])]
  {
    hide LabelPart;
  }

  lemma {:induction false} ParsedLabelsAreClean(parts: seq<string>)
    requires AllFree(parts, NUL)
    ensures forall n :: n in ParseLabels(parts) ==>
              NulFree(n) && '=' !in n && NulFree(ParseLabels(parts)[n])
  {
    if parts != [] {
      ParsedLabelsAreClean(parts[..|parts| - 1]);
      var p := parts[|parts| - 1];
      assert NUL !in p;
    }
  }

  lemma PrintedPartsAreFree(id: SeriesId)
    requires WellFormed(id)
    ensures AllFree([id.metric, id.node, id.tier, id.device] + LabelParts(id.labels, Sorted(id.labels.Keys)), NUL)
  {
    var names := Sorted(id.labels.Keys);
    var parts := LabelParts(id.labels, names);
    forall i | 0 <= i < |parts| ensures NUL !in parts[i] {
      assert names[i] in names;
    }
  }

  lemma PartsOfKey(id: SeriesId)
    requires WellFormed(id)
    ensures Split(KeyOf(id), NUL) ==
            [id.metric, id.node, id.tier, id.device] + LabelParts(id.labels, Sorted(id.labels.Keys))
  {
    hide Split, Join, LabelParts, WellFormed, AllFree;
    PrintedPartsAreFree(id);
    SplitJoin([id.metric, id.node, id.tier, id.device] + LabelParts(id.labels, Sorted(id.labels.Keys)), NUL);
  }

  lemma ParseOfParts(key: string, parts: seq<string>)
    requires IsKey(key) && parts == Split(key, NUL)
    ensures Parse(key) == SeriesId(parts[0], parts[1], parts[2], parts[3], ParseLabels(parts[4..]))
  {}

  lemma WellFormedRoundTrip(id: SeriesId)
    requires WellFormed(id) && IsKey(KeyOf(id))
    ensures Parse(KeyOf(id)) == id
  {
    var names := Sorted(id.labels.Keys);
    assert forall n :: n in names ==> n in id.labels && '=' !in n;
    hide *;
    var fields, labels := [id.metric, id.node, id.tier, id.device], LabelParts(id.labels, names);
    PartsOfKey(id);
    ParseOfParts(KeyOf(id), fields + labels);
    assert (fields + labels)[4..] == labels;
    ParsePrintedLabels(id.labels, names);
    assert (map n | n in names :: id.labels[n]) == id.labels;
  }

  /** Parsing a printed key gives the identity back exactly when no field holds a NUL and no
      label name holds an '='. Label values may hold an '='. */
  lemma RoundTripIff(id: SeriesId)
    ensures IsKey(KeyOf(id))
    ensures Parse(KeyOf(id)) == id <==> WellFormed(id)
  {
    KeyIsKey(id);
    if WellFormed(id) {
      WellFormedRoundTrip(id);
    }
    if Parse(KeyOf(id)) == id {
      var parts := Split(KeyOf(id), NUL);
      SplitFree(KeyOf(id), NUL);
      assert NUL !in parts[0] && NUL !in parts[1] && NUL !in parts[2] && NUL !in parts[3];
      ParsedLabelsAreClean(parts[4..]);
    }
  }

  /** Nothing in the sample gets in the way of the key's separators. */
  ghost predicate CleanFields(s: Sample) {
    && NulFree(s.metric) && NulFree(s.node) && NulFree(s.tier) && NulFree(s.device)
    && forall n :: n in s.labels ==> NulFree(n) && '=' !in n && NulFree(s.labels[n])
  }

  lemma KeyGivesFieldsBack(s: Sample)
    requires CleanFields(s)
    ensures var key := KeyOf(IdOf(s));
            && IsKey(key)
            && Parse(key).metric == s.metric && Parse(key).node == s.node && Parse(key).tier == s.tier
            && Parse(key).device == s.device && Parse(key).labels == s.labels
  {
    hide KeyOf, Parse, IsKey;
    RoundTripIff(IdOf(s));
  }

  /** The parts of a clean sample's key, one by one: four fields, then each label as name=value,
      by ascending name. */
  lemma KeyParts(s: Sample)
    requires CleanFields(s)
    ensures var parts, names := Split(KeyOf(IdOf(s)), NUL), Sorted(s.labels.Keys);
            && |parts| == 4 + |names|
            && parts[0] == s.metric && parts[1] == s.node && parts[2] == s.tier && parts[3] == s.device
            && forall i :: 0 <= i < |names| ==> parts[4 + i] == names[i] + "=" + s.labels[names[i]]
  {
    hide Split, Join;
    var id := IdOf(s);
    var parts := [id.metric, id.node, id.tier, id.device] + LabelParts(id.labels, Sorted(id.labels.Keys));
    PrintedPartsAreFree(id);
    SplitJoin(parts, NUL);
  }

  lemma KeyBegins(s: Sample)
    ensures s.metric + [NUL] + s.node + [NUL] + s.tier + [NUL] + s.device <= KeyOf(IdOf(s))
  {
    hide Join, LabelParts, Sorted;
    JoinOfFour(s.metric, s.node, s.tier, s.device);
    JoinBegins([s.metric, s.node, s.tier, s.device], LabelParts(s.labels, Sorted(s.labels.Keys)), NUL);
  }

  lemma {:induction false} JoinBegins(parts: seq<string>, more: seq<string>, sep: char)
    requires parts != []
    ensures Join(parts, sep) <= Join(parts + more, sep)
  {
    hide Join;
    if more == [] {
      assert parts + more == parts;
    } else {
      var p, last := more[..|more| - 1], more[|more| - 1];
      JoinBegins(parts, p, sep);
      JoinAppend(parts + p, last, sep);
      assert parts + more == parts + p + [last];
    }
  }

  /** Two well-formed samples share a bucket exactly when they are one series. */
  lemma KeysAreInjective(a: SeriesId, b: SeriesId)
    requires WellFormed(a) && WellFormed(b)
    ensures KeyOf(a) == KeyOf(b) <==> a == b
  {
    RoundTripIff(a);
    RoundTripIff(b);
  }

  /** Without that, two series can fall into one bucket: {"a=b": "c"} and {"a": "b=c"}. */
  lemma EqualsInNameMergesSeries()
    ensures var a := SeriesId("m", "n", "t", "d", map["a=b" := "c"]);
            var b := SeriesId("m", "n", "t", "d", map["a" := "b=c"]);
            a != b && KeyOf(a) == KeyOf(b)
  {
    var la, lb := map["a=b" := "c"], map["a" := "b=c"];
    SortedUnique(Sorted(la.Keys), ["a=b"]);
    SortedUnique(Sorted(lb.Keys), ["a"]);
    assert "a=b" in la && "a=b" !in lb;
    assert LabelPart("a=b", "c") == "a=b=c" == LabelPart("a", "b=c");
    assert LabelParts(la, ["a=b"]) == ["a=b=c"] == LabelParts(lb, ["a"]);
  }

  // ----- selecting series -----

  predicate HasPrefix(s: string, prefix: string) { prefix <= s }

  /** For a NUL-free metric, the prefix test picks out the keys whose metric it is. */
  lemma PrefixSelectsMetric(key: string, metric: string)
    requires IsKey(key) && NulFree(metric)
    ensures HasPrefix(key, metric + [NUL]) <==> Parse(key).metric == metric
  {
    var parts := Split(key, NUL);
    if HasPrefix(key, metric + [NUL]) {
      var rest := key[|metric| + 1..];
      assert key == metric + [NUL] + rest;
      SplitPrefix(metric, rest, NUL);
    }
    if parts[0] == metric {
      FirstPart(key, NUL);
    }
  }

  lemma {:induction false} FirstPart(s: string, sep: char)
    ensures Split(s, sep)[0] <= s && sep !in Split(s, sep)[0]
    ensures |Split(s, sep)| >= 2 ==> Split(s, sep)[0] + [sep] <= s
  {
    if s != [] {
      FirstPart(s[1..], sep);
    }
  }

  /** A requested metric that holds a NUL is never the metric of a series it selects. */
  lemma NulMetricNeverMatches(key: string, metric: string)
    requires IsKey(key) && !NulFree(metric)
    ensures Parse(key).metric != metric
  {
    FirstPart(key, NUL);
  }

  function LabelOrEmpty(labels: map<string, string>, name: string): string {
    if name in labels then labels[name] else ""
  }

  /** The value a filter entry is compared with: absent labels read as "". */
  function FilteredField(id: SeriesId, name: string): string {
    if name == "node" then id.node else if name == "device" then id.device else LabelOrEmpty(id.labels, name)
  }

  predicate Selected(id: SeriesId, filter: map<string, string>) {
    forall k :: k in filter ==> FilteredField(id, k) == filter[k]
  }

  /** Entry by entry: "node" and "device" name those two fields, every other entry a label, and a
      label the series does not have counts as "". */
  ghost predicate Passes(id: SeriesId, filter: map<string, string>) {
    && ("node" in filter ==> id.node == filter["node"])
    && ("device" in filter ==> id.device == filter["device"])
    && forall k :: k in filter && k != "node" && k != "device" ==>
         if k in id.labels then id.labels[k] == filter[k] else filter[k] == ""
  }

  lemma SelectedIsPasses(id: SeriesId, filter: map<string, string>)
    ensures Selected(id, filter) <==> Passes(id, filter)
  {
    if "node" in filter { assert FilteredField(id, "node") == id.node; }
    if "device" in filter { assert FilteredField(id, "device") == id.device; }
  }

  method MatchesFilter(id: SeriesId, filter: map<string, string>) returns (ok: bool)
    ensures ok == Selected(id, filter)
    ensures ok <==>
            && ("node" in filter ==> id.node == filter["node"])
            && ("device" in filter ==> id.device == filter["device"])
            && forall k :: k in filter && k != "node" && k != "device" ==>
                 if k in id.labels then id.labels[k] == filter[k] else filter[k] == ""
  {
    SelectedIsPasses(id, filter);
    var rest := filter.Keys;
    while rest != {}
      invariant rest <= filter.Keys
      invariant forall k :: k in filter && k !in rest ==> FilteredField(id, k) == filter[k]
      decreases rest
    {
      var k :| k in rest;
      rest := rest - {k};
      var v := filter[k];
      if k == "node" {
        if id.node != v { return false; }
      } else if k == "device" {
        if id.device != v { return false; }
      } else {
        if (if k in id.labels then id.labels[k] else "") != v { return false; }
      }
    }
    return true;
  }
}
