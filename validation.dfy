/** The error collection of `validate_form_data` (matches/views.py:378-405):
    every goal entry, then every booking entry, then the fixture id are
    checked, and the submission is valid when no error was collected. */
module FormValidation {
  import opened Text
  import opened LeagueModels

  /** One goal or booking entry of the submitted JSON. `hasSubject` is the
      truth value of its scorer (goal) or player (booking). `minute` is None
      when the minute is missing or falsy, and otherwise the integer
      `int()` reads from it. */
  datatype FormEntry = FormEntry(hasSubject: bool, minute: Option<int>)

  /** The latest minute an entry may give. */
  const MaxMinute := 120

  const FixtureError := "Invalid fixture selected"

  predicate StartsWith(s: string, prefix: string) {
    |prefix| <= |s| && s[..|prefix|] == prefix
  }

  /** "Goal 3: " and the like, numbering entries from 1. */
  function EntryPrefix(kind: string, index: nat): string {
    kind + " " + NatToString(index + 1) + ": "
  }

  /** The errors of the entry at position `index`: one for a missing
      subject, then one for a missing minute or, only when a minute is
      given, one for a minute past 120. */
  function EntryErrors(kind: string, subject: string, index: nat, e: FormEntry): (errs: seq<string>)
    ensures |errs| <= 2
    ensures errs == [] <==> e.hasSubject && e.minute.Some? && e.minute.value <= MaxMinute
    ensures forall k :: 0 <= k < |errs| ==> StartsWith(errs[k], EntryPrefix(kind, index))
    ensures |errs| == (if e.hasSubject then 0 else 1)
                      + (if e.minute.None? || e.minute.value > MaxMinute then 1 else 0)
    ensures !e.hasSubject ==> errs[0] == EntryPrefix(kind, index) + (subject + " is required")
    ensures e.minute.None? ==> errs[|errs| - 1] == EntryPrefix(kind, index) + "Minute is required"
    ensures e.minute.Some? && e.minute.value > MaxMinute
            ==> errs[|errs| - 1] == EntryPrefix(kind, index) + "Minute cannot be more than 120"
  {
    var prefix := EntryPrefix(kind, index);
    (if !e.hasSubject then [prefix + (subject + " is required")] else [])
    + (if e.minute.None? then [prefix + "Minute is required"]
       else if e.minute.value > MaxMinute then [prefix + "Minute cannot be more than 120"]
       else [])
  }

  /** The errors of all `entries`, entry by entry in index order. */
  function EntriesErrors(kind: string, subject: string, entries: seq<FormEntry>): seq<string> {
    if entries == [] then []
    else
      EntriesErrors(kind, subject, entries[..|entries| - 1])
      + EntryErrors(kind, subject, |entries| - 1, entries[|entries| - 1])
  }

  /** An entry that passes: it names its scorer or player and gives a minute
      of at most 120. */
  predicate Complete(e: FormEntry) {
    e.hasSubject && e.minute.Some? && e.minute.value <= MaxMinute
  }

  /** The fixture check: a truthy fixture id must name a stored fixture. */
  function FixtureErrors(fixtureId: Option<int>, fixtures: set<int>): seq<string> {
    if fixtureId.Some? && fixtureId.value !in fixtures then [FixtureError] else []
  }

  /** The whole error list. */
  function ValidationErrors(goals: seq<FormEntry>, bookings: seq<FormEntry>,
                            fixtureId: Option<int>, fixtures: set<int>): seq<string> {
    EntriesErrors("Goal", "Scorer", goals) + EntriesErrors("Booking", "Player", bookings)
    + FixtureErrors(fixtureId, fixtures)
  }

  /** One of the two entry loops (matches/views.py:381-387 for goals with
      "Goal" and "Scorer", 390-396 for bookings with "Booking" and "Player"):
      the entries' errors are appended to `errors` in index order. */
  method CollectEntryErrors(errors0: seq<string>, kind: string, subject: string, entries: seq<FormEntry>)
    returns (errors: seq<string>)
    ensures errors == errors0 + EntriesErrors(kind, subject, entries)
  {
    errors := errors0;
    var i := 0;
    while i < |entries|
      invariant 0 <= i <= |entries|
      invariant errors == errors0 + EntriesErrors(kind, subject, entries[..i])
    {
      assert entries[..i + 1][..i] == entries[..i];
      var entry := entries[i];
      var prefix := EntryPrefix(kind, i);
      if !entry.hasSubject {
        errors := errors + [prefix + (subject + " is required")];
      }
      ghost var middle := errors;
      if entry.minute.None? {
        errors := errors + [prefix + "Minute is required"];
      } else if entry.minute.value > MaxMinute {
        errors := errors + [prefix + "Minute cannot be more than 120"];
      }
      assert errors == middle + errors[|middle|..];
      i := i + 1;
    }
    assert entries[..i] == entries;
  }

  /** `validate_form_data` on parsed data: `fixtureId` is None when the id
      is missing or falsy, and `fixtures` are the ids of the stored fixtures. */
  method ValidateFormData(goals: seq<FormEntry>, bookings: seq<FormEntry>,
                          fixtureId: Option<int>, fixtures: set<int>)
    returns (valid: bool, errors: seq<string>)
    ensures errors == ValidationErrors(goals, bookings, fixtureId, fixtures)
    ensures valid <==> errors == []
  {
    errors := [];
    errors := CollectEntryErrors(errors, "Goal", "Scorer", goals);
    errors := CollectEntryErrors(errors, "Booking", "Player", bookings);
    if fixtureId.Some? && fixtureId.value !in fixtures {
      errors := errors + [FixtureError];
    }
    valid := |errors| == 0;
  }

  /** No entry contributes more than two errors, and every error names its
      entry's kind. */
  lemma {:induction false} EntriesErrorsBound(kind: string, subject: string, entries: seq<FormEntry>)
    ensures |EntriesErrors(kind, subject, entries)| <= 2 * |entries|
    ensures forall k :: 0 <= k < |EntriesErrors(kind, subject, entries)| ==>
              StartsWith(EntriesErrors(kind, subject, entries)[k], kind + " ")
  {
    if entries != [] {
      var prev := entries[..|entries| - 1];
      var index := |entries| - 1;
      EntriesErrorsBound(kind, subject, prev);
      var last := EntryErrors(kind, subject, index, entries[index]);
      forall k | 0 <= k < |last|
        ensures StartsWith(last[k], kind + " ")
      {
        assert EntryPrefix(kind, index)[..|kind + " "|] == kind + " ";
      }
    }
  }

  /** The entries raise no error exactly when every one of them is complete. */
  lemma {:induction false} EntriesErrorsEmpty(kind: string, subject: string, entries: seq<FormEntry>)
    ensures EntriesErrors(kind, subject, entries) == [] <==> forall i :: 0 <= i < |entries| ==> Complete(entries[i])
  {
    if entries != [] {
      var prev := entries[..|entries| - 1];
      EntriesErrorsEmpty(kind, subject, prev);
      if forall i :: 0 <= i < |entries| ==> Complete(entries[i]) {
        assert forall i :: 0 <= i < |prev| ==> Complete(prev[i]) by {
          forall i | 0 <= i < |prev| ensures Complete(prev[i]) {
            assert prev[i] == entries[i];
          }
        }
      }
      if EntriesErrors(kind, subject, entries) == [] {
        forall i | 0 <= i < |entries|
          ensures Complete(entries[i])
        {
          if i < |prev| {
            assert prev[i] == entries[i];
          }
        }
      }
    }
  }

  /** The submission is valid exactly when every goal and every booking is
      complete and the fixture id, when given, names a stored fixture; goal
      errors come first, then booking errors, and the fixture error last. */
  lemma ValidationLaws(goals: seq<FormEntry>, bookings: seq<FormEntry>, fixtureId: Option<int>, fixtures: set<int>)
    ensures var errs := ValidationErrors(goals, bookings, fixtureId, fixtures);
      && (errs == [] <==>
            (forall i :: 0 <= i < |goals| ==> Complete(goals[i]))
            && (forall i :: 0 <= i < |bookings| ==> Complete(bookings[i]))
            && (fixtureId.Some? ==> fixtureId.value in fixtures))
      && |errs| <= 2 * |goals| + 2 * |bookings| + 1
      && var g, b := |EntriesErrors("Goal", "Scorer", goals)|, |EntriesErrors("Booking", "Player", bookings)|;
         && (forall k :: 0 <= k < g ==> StartsWith(errs[k], "Goal "))
         && (forall k :: g <= k < g + b ==> StartsWith(errs[k], "Booking "))
         && (|errs| == g + b || (|errs| == g + b + 1 && errs[g + b] == FixtureError))
  {
    EntriesErrorsEmpty("Goal", "Scorer", goals);
    EntriesErrorsEmpty("Booking", "Player", bookings);
    EntriesErrorsBound("Goal", "Scorer", goals);
    EntriesErrorsBound("Booking", "Player", bookings);
  }

  /** With the subject given, every minute up to 120 is accepted and every
      later one rejected, with the message for a late minute and no other. */
  lemma MinuteBoundary(kind: string, subject: string, index: nat, minute: int)
    ensures minute <= 120 ==> EntryErrors(kind, subject, index, FormEntry(true, Some(minute))) == []
    ensures minute > 120 ==> EntryErrors(kind, subject, index, FormEntry(true, Some(minute)))
                             == [EntryPrefix(kind, index) + "Minute cannot be more than 120"]
  {
  }

  /** A missing minute is reported as missing and never as late. */
  lemma MissingMinuteNotLate(kind: string, subject: string, index: nat, hasSubject: bool)
    ensures var errs := EntryErrors(kind, subject, index, FormEntry(hasSubject, None));
      && errs[|errs| - 1] == EntryPrefix(kind, index) + "Minute is required"
      && |errs| == (if hasSubject then 1 else 2)
  {
  }
}
