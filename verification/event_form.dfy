/** The organizer's event form: editing the list of rules, validating the
    required fields and building what is written to the database. */
module EventForm {
  import opened Wrappers
  import opened Text

  /** Text as the form stores it: non-empty, with no surrounding space. */
  predicate IsTrimmedNonEmpty(rule: string) {
    rule != "" && !IsSpace(rule[0]) && !IsSpace(rule[|rule| - 1])
  }

  predicate CleanRules(rules: seq<string>) {
    forall i :: 0 <= i < |rules| ==> IsTrimmedNonEmpty(rules[i])
  }

  /** The rules list together with the text typed in the "new rule" box. */
  datatype RuleEditor = RuleEditor(rules: seq<string>, newRule: string)

  /** `addRule`: a blank box changes nothing; otherwise its trimmed text is
      appended and the box is cleared. */
  function AddRule(ed: RuleEditor): (r: RuleEditor)
    ensures IsBlank(ed.newRule) ==> r == ed
    ensures !IsBlank(ed.newRule) ==>
      && |r.rules| == |ed.rules| + 1
      && r.rules[..|ed.rules|] == ed.rules
      && r.rules[|ed.rules|] == Trim(ed.newRule)
      && IsTrimmedNonEmpty(r.rules[|ed.rules|])
      && r.newRule == ""
  {
    var text := Trim(ed.newRule);
    if text == "" then ed
    else RuleEditor(ed.rules + [text], "")
  }

  /** `removeRule`: drops the rule at `index`; an index outside the list
      (the filter matches no position) leaves the list as it is. */
  method RemoveRule(rules: seq<string>, index: int) returns (kept: seq<string>)
    ensures 0 <= index < |rules| ==> kept == rules[..index] + rules[index + 1..]
    ensures !(0 <= index < |rules|) ==> kept == rules
  {
    kept := [];
    var i := 0;
    while i < |rules|
      invariant 0 <= i <= |rules|
      invariant 0 <= index < i ==> kept == rules[..index] + rules[index + 1..i]
      invariant !(0 <= index < i) ==> kept == rules[..i]
    {
      if i != index {
        kept := kept + [rules[i]];
      }
      i := i + 1;
    }
    assert rules[..|rules|] == rules;
  }

  /** Both list edits keep every rule clean. */
  lemma AddRuleKeepsClean(ed: RuleEditor)
    requires CleanRules(ed.rules)
    ensures CleanRules(AddRule(ed).rules)
  {
    var r := AddRule(ed);
    if !IsBlank(ed.newRule) {
      forall i | 0 <= i < |r.rules|
        ensures IsTrimmedNonEmpty(r.rules[i])
      {
        if i < |ed.rules| {
          assert r.rules[i] == r.rules[..|ed.rules|][i];
        }
      }
    }
  }

  lemma RemoveRuleKeepsClean(rules: seq<string>, index: nat)
    requires CleanRules(rules) && index < |rules|
    ensures CleanRules(rules[..index] + rules[index + 1..])
  {
    var kept := rules[..index] + rules[index + 1..];
    forall i | 0 <= i < |kept|
      ensures IsTrimmedNonEmpty(kept[i])
    {
      if i < index {
        assert kept[i] == rules[i];
      } else {
        assert kept[i] == rules[i + 1];
      }
    }
  }

  /** One row of the `event_rules` table. */
  datatype RuleRow = RuleRow(eventId: string, ruleText: string, orderIndex: int)

  /** The rows for `rules`, numbered from `start`. */
  function RowsFrom(eventId: string, rules: seq<string>, start: nat): (rows: seq<RuleRow>)
    ensures |rows| == |rules|
    ensures forall i :: 0 <= i < |rows| ==> rows[i] == RuleRow(eventId, rules[i], start + i)
    decreases |rules|
  {
    if rules == [] then []
    else [RuleRow(eventId, rules[0], start)] + RowsFrom(eventId, rules[1..], start + 1)
  }

  /** The rows written when an event is saved: one per rule, numbered by
      position, and none at all when there are no rules or no event id. */
  function RowsToInsert(eventId: string, rules: seq<string>): (rows: seq<RuleRow>)
    ensures |rows| == if eventId == "" then 0 else |rules|
    ensures forall i :: 0 <= i < |rows| ==> rows[i].eventId == eventId && rows[i].orderIndex == i
  {
    if |rules| > 0 && eventId != "" then RowsFrom(eventId, rules, 0) else []
  }

  /** The form's reading of stored rows: their texts, in order. */
  function RuleTexts(rows: seq<RuleRow>): (texts: seq<string>)
    ensures |texts| == |rows|
  {
    seq(|rows|, i requires 0 <= i < |rows| => rows[i].ruleText)
  }

  /** Saving and reopening an event gives back the same rules: the rows are
      already in `order_index` order, and their texts are the rules. */
  lemma RulesRoundTrip(eventId: string, rules: seq<string>)
    requires eventId != ""
    ensures var rows := RowsToInsert(eventId, rules);
      && (forall i, j :: 0 <= i < j < |rows| ==> rows[i].orderIndex < rows[j].orderIndex)
      && RuleTexts(rows) == rules
  {
  }

  /** The form's fields as typed. */
  datatype Draft = Draft(name: string, date: string, time: string, location: string,
                         googleMapsUrl: string, playerLimit: int, goalkeeperLimit: int,
                         isOpen: bool)

  /** The event fields written on save. */
  datatype EventFields = EventFields(name: string, date: string, time: string, location: string,
                                     googleMapsUrl: Option<string>, playerLimit: int,
                                     goalkeeperLimit: int, isOpen: bool)

  /** A text field as saved: trimmed, and `None` when nothing but white
      space was typed. */
  function Clean(s: string): (r: Option<string>)
    ensures r.None? <==> IsBlank(s)
    ensures r.Some? ==> r.value == Trim(s) && IsTrimmedNonEmpty(r.value) && |r.value| <= |s|
  {
    var t := Trim(s);
    if t == "" then None else Some(t)
  }

  /** `handleSubmit`'s validation and payload: `None` when a required field
      is missing, otherwise the trimmed fields, with a blank map link
      stored as null. */
  function Submit(d: Draft): (r: Option<EventFields>)
    ensures r.None? <==> IsBlank(d.name) || d.date == "" || d.time == "" || IsBlank(d.location)
    ensures r.Some? ==>
      && r.value.name == Trim(d.name) && r.value.location == Trim(d.location)
      && r.value.googleMapsUrl == Clean(d.googleMapsUrl)
      && IsTrimmedNonEmpty(r.value.name) && IsTrimmedNonEmpty(r.value.location)
      && |r.value.name| <= |d.name| && |r.value.location| <= |d.location|
      && r.value.date == d.date && r.value.time == d.time
      && r.value.playerLimit == d.playerLimit && r.value.goalkeeperLimit == d.goalkeeperLimit
      && r.value.isOpen == d.isOpen
      && (r.value.googleMapsUrl.None? <==> IsBlank(d.googleMapsUrl))
      && (r.value.googleMapsUrl.Some? ==> IsTrimmedNonEmpty(r.value.googleMapsUrl.value))
  {
    var name := Clean(d.name);
    var location := Clean(d.location);
    if name.None? || d.date == "" || d.time == "" || location.None? then None
    else
      Some(EventFields(name.value, d.date, d.time, location.value, Clean(d.googleMapsUrl),
                       d.playerLimit, d.goalkeeperLimit, d.isOpen))
  }

  /** Cleaning a saved field again gives the same field. */
  lemma CleanIdempotent(s: string)
    ensures Clean(Clean(s).GetOr("")) == Clean(s)
  {
    TrimIdempotent(s);
  }

  /** Submitting what was just saved and loaded back saves the same
      fields again. */
  lemma SubmitIdempotent(d: Draft)
    requires !IsBlank(d.name) && d.date != "" && d.time != "" && !IsBlank(d.location)
    ensures var f := Submit(d).value;
      Submit(Draft(f.name, f.date, f.time, f.location, f.googleMapsUrl.GetOr(""),
                   f.playerLimit, f.goalkeeperLimit, f.isOpen)) == Submit(d)
  {
    var f := Submit(d).value;
    var d' := Draft(f.name, f.date, f.time, f.location, f.googleMapsUrl.GetOr(""),
                    f.playerLimit, f.goalkeeperLimit, f.isOpen);
    CleanIdempotent(d.name);
    CleanIdempotent(d.location);
    CleanIdempotent(d.googleMapsUrl);
    assert Clean(d'.name) == Clean(d.name) && Clean(d'.location) == Clean(d.location);
    assert Clean(d'.googleMapsUrl) == Clean(d.googleMapsUrl);
  }
}
