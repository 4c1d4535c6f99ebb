/**
 * The acceptance rule of `prompt_allowed_value` and `maybe_exit`: each typed
 * line is title-cased and stripped; `exit` (in any case) ends the program;
 * otherwise the value is returned once it is a non-empty member of the
 * allowed list, to which `All` has been appended.
 */
module Prompt {
  import opened Text

  /** A typed line as the program compares it: `input().title().strip()`. */
  function Normalize(typed: string): string {
    Strip(Title(typed))
  }

  /** `maybe_exit`: the value lower-cases to `exit`. */
  predicate IsExit(value: string) {
    Lower(value) == "exit"
  }

  /** The loop `while not value` stops on a value that is non-empty and allowed. */
  predicate Accepts(value: string, allowed: seq<string>) {
    value != "" && value in allowed
  }

  /** A typed value that is reported invalid and prompted for again. */
  predicate Rejects(value: string, allowed: seq<string>) {
    !IsExit(value) && !Accepts(value, allowed)
  }

  /** How prompting ends: a value is returned, the user exits, or input runs out (`input()` raises `EOFError`). */
  datatype Outcome = Chosen(value: string) | Exited | InputExhausted

  /** The outcome of prompting with the given typed lines, one line per prompt. */
  function Decide(inputs: seq<string>, allowed: seq<string>): Outcome {
    if inputs == [] then InputExhausted
    else
      var value := Normalize(inputs[0]);
      if IsExit(value) then Exited
      else if Accepts(value, allowed) then Chosen(value)
      else Decide(inputs[1..], allowed)
  }

  /** The `while not value` loop of `prompt_allowed_value`. */
  method ReadAllowedValue(allowed: seq<string>, inputs: seq<string>) returns (outcome: Outcome)
    ensures outcome == Decide(inputs, allowed)
  {
    var i := 0;
    while i < |inputs|
      invariant 0 <= i <= |inputs|
      invariant Decide(inputs, allowed) == Decide(inputs[i..], allowed)
    {
      var value := Normalize(inputs[i]);
      if IsExit(value) {
        return Exited;
      }
      if Accepts(value, allowed) {
        return Chosen(value);
      }
      assert inputs[i..][1..] == inputs[i + 1..];
      i := i + 1;
    }
    return InputExhausted;
  }

  /** A Python list the caller passes in and keeps a reference to. */
  class ChoiceList {
    var values: seq<string>

    constructor (values: seq<string>)
      ensures this.values == values
    {
      this.values := values;
    }
  }

  /**
   * `prompt_allowed_value`: `allowed_values` is the caller's own list, so
   * appending `All` to it grows the caller's list by one element.
   */
  method PromptAllowedValue(list: ChoiceList, inputs: seq<string>) returns (outcome: Outcome)
    modifies list
    ensures list.values == old(list.values) + ["All"]
    ensures outcome == Decide(inputs, old(list.values) + ["All"])
  {
    list.values := list.values + ["All"];
    outcome := ReadAllowedValue(list.values, inputs);
  }

  // ---------------------------------------------------------------------------
  // Properties

  /** Every one of the first `k` typed lines is rejected. */
  predicate RejectedBefore(inputs: seq<string>, allowed: seq<string>, k: nat)
    requires k <= |inputs|
  {
    forall j :: 0 <= j < k ==> Rejects(Normalize(inputs[j]), allowed)
  }

  /** Rejecting the first `k + 1` lines is rejecting the first line and then `k` of the rest. */
  lemma RejectedBeforeShift(inputs: seq<string>, allowed: seq<string>, k: nat)
    requires k < |inputs|
    ensures RejectedBefore(inputs, allowed, k + 1) <==>
      Rejects(Normalize(inputs[0]), allowed) && RejectedBefore(inputs[1..], allowed, k)
  {
    var rest := inputs[1..];
    if Rejects(Normalize(inputs[0]), allowed) && RejectedBefore(rest, allowed, k) {
      forall j | 0 <= j < k + 1 ensures Rejects(Normalize(inputs[j]), allowed) {
        if j > 0 {
          assert inputs[j] == rest[j - 1];
        }
      }
    }
    if RejectedBefore(inputs, allowed, k + 1) {
      forall j | 0 <= j < k ensures Rejects(Normalize(rest[j]), allowed) {
        assert rest[j] == inputs[j + 1];
      }
    }
  }

  /** Line `k` decides the prompt: it is not rejected, and every earlier line is. */
  predicate DecidedAt(inputs: seq<string>, allowed: seq<string>, k: nat) {
    k < |inputs| && !Rejects(Normalize(inputs[k]), allowed) && RejectedBefore(inputs, allowed, k)
  }

  /** The deciding line of `inputs[1..]`, if the first line is rejected, decides `inputs` one line later. */
  lemma DecidedAtShift(inputs: seq<string>, allowed: seq<string>, k: nat)
    requires k < |inputs| && inputs != []
    ensures DecidedAt(inputs, allowed, k + 1) <==>
      Rejects(Normalize(inputs[0]), allowed) && DecidedAt(inputs[1..], allowed, k)
  {
    if k + 1 < |inputs| {
      RejectedBeforeShift(inputs, allowed, k);
      assert inputs[k + 1] == inputs[1..][k];
    }
  }

  /** Prompting stops at the deciding line, if there is one. */
  lemma {:induction false} DecideAtDecidingLine(inputs: seq<string>, allowed: seq<string>, k: nat)
    requires DecidedAt(inputs, allowed, k)
    ensures var value := Normalize(inputs[k]);
      Decide(inputs, allowed) == if IsExit(value) then Exited else Chosen(value)
  {
    if k > 0 {
      DecidedAtShift(inputs, allowed, k - 1);
      DecideAtDecidingLine(inputs[1..], allowed, k - 1);
      assert inputs[1..][k - 1] == inputs[k];
    }
  }

  /** A prompt that ends by choosing or exiting has a deciding line. */
  lemma {:induction false} DecidingLineExists(inputs: seq<string>, allowed: seq<string>)
    requires !Decide(inputs, allowed).InputExhausted?
    ensures exists k :: DecidedAt(inputs, allowed, k)
  {
    if Rejects(Normalize(inputs[0]), allowed) {
      DecidingLineExists(inputs[1..], allowed);
      var k :| DecidedAt(inputs[1..], allowed, k);
      DecidedAtShift(inputs, allowed, k);
    } else {
      assert DecidedAt(inputs, allowed, 0);
    }
  }

  /** A value is returned exactly when some line is accepted and every earlier line was rejected. */
  lemma ChosenIffFirstAccepted(inputs: seq<string>, allowed: seq<string>, v: string)
    ensures Decide(inputs, allowed) == Chosen(v) <==>
      exists k :: 0 <= k < |inputs| && Normalize(inputs[k]) == v && !IsExit(v) && Accepts(v, allowed)
        && RejectedBefore(inputs, allowed, k)
  {
    if Decide(inputs, allowed) == Chosen(v) {
      DecidingLineExists(inputs, allowed);
      var k :| DecidedAt(inputs, allowed, k);
      DecideAtDecidingLine(inputs, allowed, k);
    }
    if exists k :: 0 <= k < |inputs| && Normalize(inputs[k]) == v && !IsExit(v) && Accepts(v, allowed)
        && RejectedBefore(inputs, allowed, k) {
      var k :| 0 <= k < |inputs| && Normalize(inputs[k]) == v && !IsExit(v) && Accepts(v, allowed)
        && RejectedBefore(inputs, allowed, k);
      DecideAtDecidingLine(inputs, allowed, k);
    }
  }

  /** The program exits exactly when some line says `exit` and every earlier line was rejected. */
  lemma ExitedIffFirstExit(inputs: seq<string>, allowed: seq<string>)
    ensures Decide(inputs, allowed) == Exited <==>
      exists k :: 0 <= k < |inputs| && IsExit(Normalize(inputs[k])) && RejectedBefore(inputs, allowed, k)
  {
    if Decide(inputs, allowed) == Exited {
      DecidingLineExists(inputs, allowed);
      var k :| DecidedAt(inputs, allowed, k);
      DecideAtDecidingLine(inputs, allowed, k);
    }
    if exists k :: 0 <= k < |inputs| && IsExit(Normalize(inputs[k])) && RejectedBefore(inputs, allowed, k) {
      var k :| 0 <= k < |inputs| && IsExit(Normalize(inputs[k])) && RejectedBefore(inputs, allowed, k);
      DecideAtDecidingLine(inputs, allowed, k);
    }
  }

  /** Prompting runs out of input exactly when every typed line was rejected. */
  lemma {:induction false} ExhaustedIffAllRejected(inputs: seq<string>, allowed: seq<string>)
    ensures Decide(inputs, allowed) == InputExhausted <==>
      forall k :: 0 <= k < |inputs| ==> Rejects(Normalize(inputs[k]), allowed)
  {
    if inputs != [] {
      var rest := inputs[1..];
      ExhaustedIffAllRejected(rest, allowed);
      forall k | 0 < k < |inputs| ensures inputs[k] == rest[k - 1] {
      }
    }
  }

  /** `exit` is recognised whatever its letter case and surrounding whitespace. */
  lemma ExitIgnoresCaseAndSpace(typed: string)
    ensures IsExit(Normalize(typed)) <==> Lower(Strip(typed)) == "exit"
  {
    TitleThenLower(typed);
    StripLower(Title(typed), typed);
  }

  /** The empty string is never returned, even if the allowed list contains it. */
  lemma EmptyIsNeverChosen(inputs: seq<string>, allowed: seq<string>)
    ensures Decide(inputs, allowed) != Chosen("")
  {
    ChosenIffFirstAccepted(inputs, allowed, "");
  }

  /** After `prompt_allowed_value`, `All` is always an accepted answer. */
  lemma AllIsAccepted(values: seq<string>)
    ensures Accepts("All", values + ["All"])
  {
    assert (values + ["All"])[|values|] == "All";
  }
}
