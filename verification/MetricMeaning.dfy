/** What the commands on a metric leave in its versions, field by field. */
module MetricMeaning {
  import opened Wrappers
  import opened MetricVersions
  import opened MetricRestarts

  // ----- text -----

  /** The white space of Python's `str.strip`, by code point. */
  predicate Blank(c: char) {
    var n := c as int;
    || n == 0x09 || n == 0x0a || n == 0x0b || n == 0x0c || n == 0x0d
    || n == 0x1c || n == 0x1d || n == 0x1e || n == 0x1f || n == 0x20
    || n == 0x85 || n == 0xa0 || n == 0x1680
    || 0x2000 <= n <= 0x200a
    || n == 0x2028 || n == 0x2029 || n == 0x202f || n == 0x205f || n == 0x3000
  }

  predicate AllBlank(s: string) { forall i :: 0 <= i < |s| ==> Blank(s[i]) }

  /** White space around `r`, and none at its ends: that is `s`. */
  ghost predicate Stripped(s: string, r: string) {
    && (r == "" || (!Blank(r[0]) && !Blank(r[|r| - 1])))
    && exists a, b :: AllBlank(a) && AllBlank(b) && s == a + r + b
  }

  lemma SpaceIsBlank(c: char)
    ensures IsSpace(c) <==> Blank(c)
  {
  }

  lemma OneMore(a: string, r: string, b: string, c: char)
    requires AllBlank(a) && AllBlank(b) && Blank(c)
    ensures AllBlank([c] + a) && [c] + (a + r + b) == ([c] + a) + r + b
    ensures AllBlank(b + [c]) && (a + r + b) + [c] == a + r + (b + [c])
  {
  }

  lemma {:induction false} StripParts(s: string, r: string) returns (a: string, b: string)
    requires r == Strip(s)
    ensures AllBlank(a) && AllBlank(b) && s == a + r + b
  {
    if s == "" {
      a, b := "", "";
    } else if IsSpace(s[0]) {
      a, b := StripParts(s[1..], r);
      SpaceIsBlank(s[0]);
      OneMore(a, r, b, s[0]);
      assert s == [s[0]] + s[1..];
      a := [s[0]] + a;
    } else if IsSpace(s[|s| - 1]) {
      a, b := StripParts(s[..|s| - 1], r);
      SpaceIsBlank(s[|s| - 1]);
      OneMore(a, r, b, s[|s| - 1]);
      assert s == s[..|s| - 1] + [s[|s| - 1]];
      b := b + [s[|s| - 1]];
    } else {
      a, b := "", "";
    }
  }

  lemma EndsNotBlank(r: string)
    requires r != "" && !IsSpace(r[0]) && !IsSpace(r[|r| - 1])
    ensures !Blank(r[0]) && !Blank(r[|r| - 1])
  {
  }

  lemma StripStrips(s: string)
    ensures Stripped(s, Strip(s))
  {
    var a, b := StripParts(s, Strip(s));
    if Strip(s) != "" { EndsNotBlank(Strip(s)); }
  }

  /** What is left of a text when its white space is stripped is determined. */
  lemma {:induction false} StrippedIsStrip(s: string, a: string, r: string, b: string)
    requires s == a + r + b && AllBlank(a) && AllBlank(b)
    requires r == "" || (!Blank(r[0]) && !Blank(r[|r| - 1]))
    ensures r == Strip(s)
    decreases |s|
  {
    if a != "" {
      assert s[0] == a[0] && s[1..] == a[1..] + r + b;
      SpaceIsBlank(s[0]);
      StrippedIsStrip(s[1..], a[1..], r, b);
    } else {
      assert s == r + b;
      BackStripped(s, r, b);
    }
  }

  lemma {:induction false} BackStripped(s: string, r: string, b: string)
    requires s == r + b && AllBlank(b)
    requires r == "" || (!Blank(r[0]) && !Blank(r[|r| - 1]))
    ensures r == Strip(s)
    decreases |s|
  {
    if s != "" {
      SpaceIsBlank(s[0]);
      SpaceIsBlank(s[|s| - 1]);
      if r == "" {
        assert s[0] == b[0] && s[1..] == "" + b[1..];
        BackStripped(s[1..], r, b[1..]);
      } else if b != "" {
        assert s[|s| - 1] == b[|b| - 1] && s[..|s| - 1] == r + b[..|b| - 1];
        BackStripped(s[..|s| - 1], r, b[..|b| - 1]);
      }
    }
  }

  lemma StrippedOnly(s: string, r: string)
    ensures Stripped(s, r) <==> r == Strip(s)
  {
    StripStrips(s);
    if Stripped(s, r) {
      var a, b :| AllBlank(a) && AllBlank(b) && s == a + r + b;
      StrippedIsStrip(s, a, r, b);
    }
  }

  /** Absent and empty are absent; anything else is stripped, and may become empty. */
  ghost predicate StrippedGiven(t: Option<string>, r: Option<string>) {
    match t
    case None => r == None
    case Some(s) => if s == "" then r == None else r.Some? && Stripped(s, r.value)
  }

  lemma StripGivenStrips(t: Option<string>)
    ensures StrippedGiven(t, StripGiven(t))
  {
    if t.Some? { StripStrips(t.value); }
  }

  /** The texts that are not all white space, each stripped, in order. */
  ghost predicate StrippedList(ts: seq<string>, rs: seq<string>) {
    if ts == [] then rs == []
    else if AllBlank(ts[0]) then StrippedList(ts[1..], rs)
    else rs != [] && Stripped(ts[0], rs[0]) && StrippedList(ts[1..], rs[1..])
  }

  lemma {:induction false} StripListStrips(ts: seq<string>, rs: seq<string>)
    requires rs == StripList(ts)
    ensures StrippedList(ts, rs)
  {
    if ts != [] {
      StripStrips(ts[0]);
      BlankStrips(ts[0]);
      if Strip(ts[0]) == "" {
        assert rs == StripList(ts[1..]);
        StripListStrips(ts[1..], rs);
      } else {
        assert rs[1..] == StripList(ts[1..]);
        StripListStrips(ts[1..], rs[1..]);
      }
    }
  }

  lemma BlankStrips(s: string)
    ensures Strip(s) == "" <==> AllBlank(s)
  {
    var a, b := StripParts(s, Strip(s));
    if AllBlank(s) {
      assert s == s + "" + "";
      StrippedIsStrip(s, s, "", "");
    }
  }

  // ----- content -----

  /** What is kept of the input of a publish. */
  ghost predicate IsCleaned(c: Content, d: Content) {
    && Stripped(c.definition, d.definition) && Stripped(c.formula, d.formula)
    && Stripped(c.owner, d.owner) && Stripped(c.freshnessRule, d.freshnessRule)
    && StrippedList(c.aliases, d.aliases) && StrippedGiven(c.aggregation, d.aggregation)
    && StrippedGiven(c.grain, d.grain) && StrippedGiven(c.unit, d.unit)
    && StrippedList(c.dimensions, d.dimensions)
    && d.source == (if c.source == Some(map[]) then None else c.source)
    && d.joins == c.joins && StrippedList(c.certifiedFilters, d.certifiedFilters)
    && StrippedList(c.examples, d.examples) && StrippedList(c.negativeExamples, d.negativeExamples)
    && d.security == (if c.security == Some(map[]) then None else c.security)
    && StrippedGiven(c.cubeName, d.cubeName) && StrippedGiven(c.measureName, d.measureName)
    && StrippedGiven(c.timeDimension, d.timeDimension) && StrippedList(c.cubeDimensions, d.cubeDimensions)
    && StrippedList(c.primaryKey, d.primaryKey) && StrippedGiven(c.displayFormat, d.displayFormat)
    && StrippedGiven(c.runtimeStatus, d.runtimeStatus) && StrippedList(c.runtimeErrors, d.runtimeErrors)
    && d.lastSynced == c.lastSynced
  }

  lemma InputIsCleaned(c: Content)
    ensures IsCleaned(c, FromInput(c))
  {
    StripStrips(c.definition);
    StripStrips(c.formula);
    StripStrips(c.owner);
    StripStrips(c.freshnessRule);
    GivenAreStripped(c);
    ListsAreStripped(c);
  }

  lemma GivenAreStripped(c: Content)
    ensures var d := FromInput(c);
            && StrippedGiven(c.aggregation, d.aggregation) && StrippedGiven(c.grain, d.grain)
            && StrippedGiven(c.unit, d.unit) && StrippedGiven(c.cubeName, d.cubeName)
            && StrippedGiven(c.measureName, d.measureName) && StrippedGiven(c.timeDimension, d.timeDimension)
            && StrippedGiven(c.displayFormat, d.displayFormat) && StrippedGiven(c.runtimeStatus, d.runtimeStatus)
  {
    StripGivenStrips(c.aggregation);
    StripGivenStrips(c.grain);
    StripGivenStrips(c.unit);
    StripGivenStrips(c.cubeName);
    StripGivenStrips(c.measureName);
    StripGivenStrips(c.timeDimension);
    StripGivenStrips(c.displayFormat);
    StripGivenStrips(c.runtimeStatus);
  }

  lemma ListsAreStripped(c: Content)
    ensures var d := FromInput(c);
            && StrippedList(c.aliases, d.aliases) && StrippedList(c.dimensions, d.dimensions)
            && StrippedList(c.certifiedFilters, d.certifiedFilters) && StrippedList(c.examples, d.examples)
            && StrippedList(c.negativeExamples, d.negativeExamples)
            && StrippedList(c.cubeDimensions, d.cubeDimensions) && StrippedList(c.primaryKey, d.primaryKey)
            && StrippedList(c.runtimeErrors, d.runtimeErrors)
  {
    StripListStrips(c.aliases, StripList(c.aliases));
    StripListStrips(c.dimensions, StripList(c.dimensions));
    StripListStrips(c.certifiedFilters, StripList(c.certifiedFilters));
    StripListStrips(c.examples, StripList(c.examples));
    StripListStrips(c.negativeExamples, StripList(c.negativeExamples));
    StripListStrips(c.cubeDimensions, StripList(c.cubeDimensions));
    StripListStrips(c.primaryKey, StripList(c.primaryKey));
    StripListStrips(c.runtimeErrors, StripList(c.runtimeErrors));
  }

  // ----- commands -----

  /** The metric that a log shows: its last version, unless that is a deletion. */
  function LastShown(vs: seq<Version>): Option<Version> {
    if vs == [] || vs[|vs| - 1].action == Deleted then None else Some(vs[|vs| - 1])
  }

  /** Who made the version, when, in which way, and which formula it replaced. */
  predicate Stamped(v: Version, id: string, changedBy: string, at: int, action: Change, before: Option<Version>) {
    && v.id == id && v.changedBy == changedBy && v.at == at && v.action == action
    && v.previousFormula == (if before.Some? then Some(before.value.content.formula) else None)
  }

  /** The log got one version more. */
  predicate Longer(before: seq<Version>, after: seq<Version>) {
    |after| == |before| + 1 && after[..|before|] == before
  }

  lemma KeyIsFolded(fold: Folding, term: string, t: string)
    requires Stripped(term, t)
    ensures KeyOf(fold, term) == fold(t)
  {
    StrippedOnly(term, t);
  }

  lemma ShownIsLast(fold: Folding, m: Memory, key: string)
    requires MetricVersions.Ok(fold, m)
    ensures Current(m, key) == LastShown(History(m, key))
  {
    CurrentIsLast(fold, m, key);
  }

  lemma OthersStay(fold: Folding, m: Memory, c: Command, id: string, at: int, key: string)
    requires key != KeyOf(fold, c.term)
    ensures History(Step(fold, m, c, id, at), key) == History(m, key)
  {
  }

  lemma FindAt(vs: seq<Version>, id: string, j: nat)
    requires j < |vs| && vs[j].id == id && DistinctIds(vs)
    ensures Find(vs, id) == Some(vs[j])
  {
    var found := Find(vs, id);
    assert vs[j] in vs;
    var i :| 0 <= i < |vs| && vs[i] == found.value;
    assert i == j;
  }

  /** A publish adds a version with the cleaned input under the stripped term `t`, and shows it. */
  lemma PublishInFull(fold: Folding, m: Memory, term: string, t: string, input: Content, changedBy: string, id: string,
                      at: int)
    requires MetricVersions.Ok(fold, m) && Fresh(m, id) && Stripped(term, t)
    ensures var next := Step(fold, m, Publish(term, input, changedBy), id, at);
            var (before, after) := (History(m, fold(t)), History(next, fold(t)));
            && Longer(before, after)
            && var v := after[|before|];
               && Current(next, fold(t)) == Some(v)
               && Stamped(v, id, changedBy, at, Published, LastShown(before))
               && v.term == t && v.reason == None && IsCleaned(input, v.content)
  {
    var c := Publish(term, input, changedBy);
    KeyIsFolded(fold, term, t);
    StrippedOnly(term, t);
    InputIsCleaned(input);
    ShownIsLast(fold, m, fold(t));
    var added := StepAdds(fold, m, c, id, at);
    AddedShows(fold, m, fold(t), added.value);
  }

  /** A rollback to version `j` of the log copies its term and content, and shows them. */
  lemma RollbackInFull(fold: Folding, m: Memory, term: string, t: string, j: nat, changedBy: string,
                       reason: Option<string>, id: string, at: int)
    requires MetricVersions.Ok(fold, m) && Fresh(m, id) && Stripped(term, t) && j < |History(m, fold(t))|
    ensures var (before, target) := (History(m, fold(t)), History(m, fold(t))[j]);
            var next := Step(fold, m, Rollback(term, target.id, changedBy, reason), id, at);
            var after := History(next, fold(t));
            && Longer(before, after)
            && var v := after[|before|];
               && Current(next, fold(t)) == Some(v)
               && Stamped(v, id, changedBy, at, RolledBack, LastShown(before))
               && v.term == target.term && v.content == target.content && StrippedGiven(reason, v.reason)
  {
    var vs := History(m, fold(t));
    var c := Rollback(term, vs[j].id, changedBy, reason);
    KeyIsFolded(fold, term, t);
    ShownIsLast(fold, m, fold(t));
    StripGivenStrips(reason);
    FindAt(vs, vs[j].id, j);
    assert NoEmptyRecords(vs[j].content);
    var added := StepAdds(fold, m, c, id, at);
    AddedShows(fold, m, fold(t), added.value);
  }

  /** A rollback to an id that is not in the log does nothing. */
  lemma RollbackToUnknown(fold: Folding, m: Memory, term: string, t: string, target: string, changedBy: string,
                          reason: Option<string>, id: string, at: int)
    requires Stripped(term, t) && forall v :: v in History(m, fold(t)) ==> v.id != target
    ensures Step(fold, m, Rollback(term, target, changedBy, reason), id, at) == m
  {
    KeyIsFolded(fold, term, t);
  }

  /** A delete of a metric that is shown copies its term and content, and shows nothing; otherwise it does nothing. */
  lemma DeleteInFull(fold: Folding, m: Memory, term: string, t: string, changedBy: string, reason: Option<string>,
                     id: string, at: int)
    requires MetricVersions.Ok(fold, m) && Fresh(m, id) && Stripped(term, t)
    ensures var next := Step(fold, m, Delete(term, changedBy, reason), id, at);
            var (before, after) := (History(m, fold(t)), History(next, fold(t)));
            var shown := LastShown(before);
            && Current(next, fold(t)) == None
            && (shown == None ==> next == m)
            && (shown != None ==>
                  && Longer(before, after)
                  && var v := after[|before|];
                     && Stamped(v, id, changedBy, at, Deleted, shown)
                     && v.term == shown.value.term && v.content == shown.value.content
                     && StrippedGiven(reason, v.reason))
  {
    var c := Delete(term, changedBy, reason);
    KeyIsFolded(fold, term, t);
    ShownIsLast(fold, m, fold(t));
    StripGivenStrips(reason);
    var added := StepAdds(fold, m, c, id, at);
    if added.Some? {
      assert LastShown(History(m, fold(t))).value in History(m, fold(t));
      AddedShows(fold, m, fold(t), added.value);
    }
  }

  // ----- rereading -----

  /** Empty optional texts are absent. */
  predicate NotEmptyOr(t: Option<string>, r: Option<string>) { if t == Some("") then r == None else r == t }

  /** What a version made by these commands becomes when it is read from the store. */
  lemma RereadInFull(v: Version)
    requires Tidy(v.content)
    ensures var (w, c, d) := (Reread(v), v.content, Reread(v).content);
            && w.id == v.id && w.term == v.term && w.changedBy == v.changedBy && w.at == v.at && w.action == v.action
            && NotEmptyOr(v.previousFormula, w.previousFormula) && NotEmptyOr(v.reason, w.reason)
            && d.definition == c.definition && d.formula == c.formula && d.owner == c.owner
            && d.freshnessRule == c.freshnessRule && d.aliases == c.aliases && d.dimensions == c.dimensions
            && d.source == c.source && d.joins == c.joins && d.certifiedFilters == c.certifiedFilters
            && d.examples == c.examples && d.negativeExamples == c.negativeExamples && d.security == c.security
            && d.cubeDimensions == c.cubeDimensions && d.primaryKey == c.primaryKey
            && d.runtimeErrors == c.runtimeErrors
            && NotEmptyOr(c.aggregation, d.aggregation) && NotEmptyOr(c.grain, d.grain) && NotEmptyOr(c.unit, d.unit)
            && NotEmptyOr(c.cubeName, d.cubeName) && NotEmptyOr(c.measureName, d.measureName)
            && NotEmptyOr(c.timeDimension, d.timeDimension) && NotEmptyOr(c.displayFormat, d.displayFormat)
            && NotEmptyOr(c.runtimeStatus, d.runtimeStatus) && NotEmptyOr(c.lastSynced, d.lastSynced)
  {
    TidyReread(v);
  }
}
