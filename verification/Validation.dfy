/**
 What validation is worth over whole runs: no record is ever stored with a
 required text blank or untrimmed, because every write is built from cleaned
 input or from a stored record.
 */
module Validation {
  import opened Status
  import opened Text
  import opened Records
  import Tables
  import opened Protocol
  import opened Invariants

  /** A required text as it may be stored. */
  predicate IsPresent(text: string) {
    text != "" && IsTrimmed(text)
  }

  ghost predicate IsFilled(e: Entity, rec: Record) {
    && IsPresent(rec.code) && IsPresent(rec.fields.name)
    && IsPresent(rec.fields.facility) && IsPresent(rec.fields.owner)
    && (e.Priority? ==> IsPresent(rec.fields.evidence) && IsPresent(rec.fields.relatedCode))
  }

  /** Every row, and every snapshot a request still holds, is filled in. */
  ghost predicate AllFilled(e: Entity, s: State) {
    && (forall id :: id in s.table.rows ==> IsFilled(e, s.table.rows[id].rec))
    && (forall k :: k in s.pending && s.pending[k].Writing? && s.pending[k].read.Some? ==>
          IsFilled(e, s.pending[k].read.value))
  }

  lemma TrimmedIsPresent(text: string)
    requires Trim(text) != ""
    ensures IsPresent(Trim(text)) && IsPresent(Canonical(text))
  {
    TrimIsTrimmed(text);
    CanonicalIsFixed(text);
    assert |Canonical(text)| == |Trim(text)|;
  }

  lemma CleanedIsPresent(e: Entity, code: string, input: Fields)
    requires HasBusinessFields(e, code, input)
    ensures IsPresent(Canonical(code)) && IsPresent(Clean(input).name)
    ensures IsPresent(Clean(input).facility) && IsPresent(Clean(input).owner)
    ensures e.Priority? ==> IsPresent(Clean(input).evidence) && IsPresent(Clean(input).relatedCode)
  {
    TrimmedIsPresent(code);
    TrimmedIsPresent(input.name);
    TrimmedIsPresent(input.facility);
    TrimmedIsPresent(input.owner);
    if e.Priority? {
      TrimmedIsPresent(input.evidence);
      TrimmedIsPresent(input.relatedCode);
    }
  }

  lemma CommitFills(e: Entity, c: Entry)
    requires EntryOk(e, c)
    requires c.read.Some? ==> IsFilled(e, c.read.value)
    requires c.before.Some? ==> IsFilled(e, c.before.value)
    ensures IsFilled(e, c.after)
  {
    match c.request.op
    case Create(code, input) => CleanedIsPresent(e, code, input);
    case Edit(_, _, input) => CleanedIsPresent(e, c.read.value.code, input);
    case Transition(_, _, _, _) =>
    case Delete(_) =>
  }

  lemma CommitKeepsFilled(e: Entity, s: State, s': State, token: nat, c: Entry)
    requires AllFilled(e, s) && IsCommit(e, s, s', token, c)
    ensures AllFilled(e, s')
  {
    CommitFills(e, c);
  }

  lemma OtherStepKeepsFilled(e: Entity, s: State, step: Step)
    requires AllFilled(e, s) && WrittenBy(e, s, step).None?
    ensures AllFilled(e, Next(e, s, step))
  {
  }

  /** No run, disciplined or not, stores a record with a required text blank or untrimmed. */
  lemma {:induction false} RecordsAreFilled(e: Entity, t0: Table, steps: seq<Step>)
    requires Tables.TableOk(e, t0) && forall id :: id in t0.rows ==> IsFilled(e, t0.rows[id].rec)
    ensures AllFilled(e, Run(e, Start(t0), steps))
  {
    if steps != [] {
      var front, step := steps[..|steps| - 1], steps[|steps| - 1];
      RecordsAreFilled(e, t0, front);
      RunKeepsInv(e, t0, front);
      var s := Run(e, Start(t0), front);
      StepEffect(e, t0, s, step);
      if WrittenBy(e, s, step).Some? {
        CommitKeepsFilled(e, s, Next(e, s, step), step.token, WrittenBy(e, s, step).value);
      } else {
        OtherStepKeepsFilled(e, s, step);
      }
    }
  }
}
