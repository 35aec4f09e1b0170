/** The generation run of the page (App.tsx:10-55): the start gate, the batch
    of pending result rows, the one update each task makes to its own row,
    and the `canGenerate` flag. */
module App {
  import opened Types
  import opened Text
  import opened Seqs
  import GeminiService

  const DataUrlPrefix := "data:image/png;base64,"
  const FailedToGenerate := "Failed to generate"

  /** `p.value.trim()` is truthy: the prompt is not blank. */
  predicate HasText(p: Prompt)
  {
    !IsBlank(p.value)
  }

  /** The guard at line 17: no image, or every prompt blank. */
  predicate Refused(image: Option<ImageFile>, prompts: seq<Prompt>)
    ensures Refused(image, prompts) <==> image.None? || ValidPrompts(prompts) == []
    ensures Refused(image, prompts) <==> image.None? || InitialResults(prompts) == []
  {
    AllBlankIffNoneValid(prompts);
    image.None? || forall k :: 0 <= k < |prompts| ==> IsBlank(prompts[k].value)
  }

  /** Every prompt is blank exactly when filtering keeps none of them. */
  lemma AllBlankIffNoneValid(prompts: seq<Prompt>)
    ensures (forall k :: 0 <= k < |prompts| ==> IsBlank(prompts[k].value)) <==> ValidPrompts(prompts) == []
  {
    var valid := ValidPrompts(prompts);
    if forall k :: 0 <= k < |prompts| ==> IsBlank(prompts[k].value) {
      if valid != [] {
        assert valid[0] in prompts;
      }
    } else {
      var k :| 0 <= k < |prompts| && !IsBlank(prompts[k].value);
      assert prompts[k] in valid;
    }
  }

  /** `prompts.filter(p => p.value.trim())` (line 23). */
  function ValidPrompts(prompts: seq<Prompt>): (r: seq<Prompt>)
    ensures |r| == Count(prompts, HasText)
    ensures forall p :: p in r <==> p in prompts && HasText(p)
  {
    Filter(prompts, HasText)
  }

  predicate IsPending(g: GeneratedImage)
  {
    g.isLoading && g.imageUrl.None? && g.error.None?
  }

  /** The pending row made for a prompt; it keeps the untrimmed text. */
  function Pending(p: Prompt): GeneratedImage
  {
    GeneratedImage(p.value, None, None, true)
  }

  /** `validPrompts.map(prompt => ...)` (lines 25-30). */
  function PendingRows(valid: seq<Prompt>): (r: seq<GeneratedImage>)
    ensures |r| == |valid|
    ensures forall k :: 0 <= k < |r| ==> r[k] == Pending(valid[k])
  {
    seq(|valid|, k requires 0 <= k < |valid| => Pending(valid[k]))
  }

  /** `initialResults` (lines 23-30): one pending row per non-blank prompt,
      each carrying that prompt's untrimmed text. */
  function InitialResults(prompts: seq<Prompt>): (r: seq<GeneratedImage>)
    ensures |r| == Count(prompts, HasText)
    ensures forall k :: 0 <= k < |r| ==> IsPending(r[k]) && !IsBlank(r[k].prompt)
  {
    var valid := ValidPrompts(prompts);
    var r := PendingRows(valid);
    assert forall k :: 0 <= k < |r| ==> valid[k] in valid && HasText(valid[k]) && r[k].prompt == valid[k].value;
    r
  }

  /** The batch keeps the prompts' relative order: the rows of a
      concatenation are the rows of its parts, one after the other. */
  lemma InitialResultsConcat(a: seq<Prompt>, b: seq<Prompt>)
    ensures InitialResults(a + b) == InitialResults(a) + InitialResults(b)
  {
    FilterConcat(a, b, HasText);
    PendingRowsConcat(ValidPrompts(a), ValidPrompts(b));
  }

  lemma PendingRowsConcat(x: seq<Prompt>, y: seq<Prompt>)
    ensures PendingRows(x + y) == PendingRows(x) + PendingRows(y)
  {
    var l, r := PendingRows(x + y), PendingRows(x) + PendingRows(y);
    forall k | 0 <= k < |l|
      ensures l[k] == r[k]
    {
      if k < |x| {
        assert (x + y)[k] == x[k];
      } else {
        assert (x + y)[k] == y[k - |x|];
      }
    }
  }

  /** A single prompt gives one pending row with its untrimmed text when it
      is not blank, and no row when it is. */
  lemma InitialResultsOfOne(p: Prompt)
    ensures InitialResults([p]) == if HasText(p) then [Pending(p)] else []
  {
    assert [p][1..] == [];
  }

  /** A task's terminal event: success with the image data, or failure with
      the rejection's message, for the row at `index`. */
  datatype Completion = Succeeded(index: nat, data: string) | Failed(index: nat, message: string)

  /** `error.message || 'Failed to generate'`: an empty message is replaced. */
  function ErrorText(message: string): (t: string)
    ensures |t| > 0
    ensures message != [] ==> t == message
    ensures message == [] ==> t == FailedToGenerate
  {
    if message == [] then FailedToGenerate else message
  }

  /** The rewrite of one row (lines 38 and 45): it stops loading, keeps its
      prompt, and gains either an image URL or an error. */
  function Settle(g: GeneratedImage, c: Completion): (s: GeneratedImage)
    ensures s.prompt == g.prompt && !s.isLoading
    ensures c.Succeeded? ==> s.imageUrl == Some(DataUrlPrefix + c.data) && s.error == g.error
    ensures c.Failed? ==> s.error == Some(ErrorText(c.message)) && s.imageUrl == g.imageUrl
  {
    match c
    case Succeeded(_, data) => g.(imageUrl := Some(DataUrlPrefix + data), isLoading := false)
    case Failed(_, message) => g.(error := Some(ErrorText(message)), isLoading := false)
  }

  /** `prev.map((r, i) => i === index ? ... : r)`: only the row at the
      event's index changes; an index past the end changes nothing. */
  function Apply(results: seq<GeneratedImage>, c: Completion): (r: seq<GeneratedImage>)
    ensures |r| == |results|
    ensures forall k :: 0 <= k < |r| && k != c.index ==> r[k] == results[k]
    ensures c.index < |r| ==> r[c.index] == Settle(results[c.index], c)
  {
    seq(|results|, k requires 0 <= k < |results| => if k == c.index then Settle(results[k], c) else results[k])
  }

  /** The rows after a sequence of completion events, in the order given;
      a row that no event names is left as it was. */
  function ApplyAll(results: seq<GeneratedImage>, cs: seq<Completion>): (r: seq<GeneratedImage>)
    ensures |r| == |results|
    ensures forall k :: 0 <= k < |results| && Untouched(cs, k) ==> r[k] == results[k]
    decreases |cs|
  {
    if cs == [] then results
    else
      assert forall k :: Untouched(cs, k) ==> Untouched(cs[..|cs| - 1], k);
      Apply(ApplyAll(results, cs[..|cs| - 1]), cs[|cs| - 1])
  }

  /** No event of `cs` is for row `k`. */
  predicate Untouched(cs: seq<Completion>, k: nat)
  {
    forall c :: c in cs ==> c.index != k
  }

  /** Each row completes at most once. */
  predicate DistinctIndices(cs: seq<Completion>)
  {
    forall i, j :: 0 <= i < j < |cs| ==> cs[i].index != cs[j].index
  }

  /** The last event of `cs` for row `k`, if any. */
  function EventFor(cs: seq<Completion>, k: nat): (e: Option<Completion>)
    ensures e.Some? ==> e.value in cs && e.value.index == k
    ensures e.None? ==> forall c :: c in cs ==> c.index != k
  {
    if cs == [] then None
    else if cs[|cs| - 1].index == k then Some(cs[|cs| - 1])
    else
      assert forall c :: c in cs ==> c in cs[..|cs| - 1] || c == cs[|cs| - 1];
      EventFor(cs[..|cs| - 1], k)
  }

  /** When rows complete at most once, the event for a row is the only one
      for it. */
  lemma EventForUnique(cs: seq<Completion>, c: Completion)
    requires DistinctIndices(cs)
    requires c in cs
    ensures EventFor(cs, c.index) == Some(c)
  {
  }

  /** A row touched by `e`, or left as it was. */
  function SettledBy(g: GeneratedImage, e: Option<Completion>): GeneratedImage
  {
    match e
    case None => g
    case Some(c) => Settle(g, c)
  }

  /** With each row completing at most once, row `k` after all events is
      row `k` rewritten by its own event alone: no other event reaches it. */
  lemma {:induction false} ApplyAllAt(results: seq<GeneratedImage>, cs: seq<Completion>, k: nat)
    requires DistinctIndices(cs)
    requires k < |results|
    ensures ApplyAll(results, cs)[k] == SettledBy(results[k], EventFor(cs, k))
  {
    if cs != [] {
      var n := |cs| - 1;
      var prefix := cs[..n];
      assert DistinctIndices(prefix);
      ApplyAllAt(results, prefix, k);
      if cs[n].index == k {
        assert EventFor(prefix, k).None? by {
          forall c | c in prefix
            ensures c.index != k
          {
            var i :| 0 <= i < n && prefix[i] == c;
            assert cs[i] == c;
          }
        }
      }
    }
  }

  /** Updates for different rows commute. */
  lemma ApplyCommutes(results: seq<GeneratedImage>, a: Completion, b: Completion)
    requires a.index != b.index
    ensures Apply(Apply(results, a), b) == Apply(Apply(results, b), a)
  {
  }

  /** When each row completes at most once, the final rows do not depend on
      the order in which the events arrive. */
  lemma OrderIndependent(results: seq<GeneratedImage>, cs1: seq<Completion>, cs2: seq<Completion>)
    requires DistinctIndices(cs1) && DistinctIndices(cs2)
    requires multiset(cs1) == multiset(cs2)
    ensures ApplyAll(results, cs1) == ApplyAll(results, cs2)
  {
    forall k | 0 <= k < |results|
      ensures ApplyAll(results, cs1)[k] == ApplyAll(results, cs2)[k]
    {
      ApplyAllAt(results, cs1, k);
      ApplyAllAt(results, cs2, k);
      var e1, e2 := EventFor(cs1, k), EventFor(cs2, k);
      if e1.Some? {
        assert e1.value in multiset(cs2);
        EventForUnique(cs2, e1.value);
      } else {
        forall c | c in cs2
          ensures c.index != k
        {
          assert c in multiset(cs1);
        }
      }
    }
  }

  /** A row that is loading has neither an image URL nor an error; one that
      has finished has exactly one of the two. */
  predicate WellFormed(g: GeneratedImage)
  {
    if g.isLoading then g.imageUrl.None? && g.error.None? else g.imageUrl.Some? != g.error.Some?
  }

  /** Some event of `cs` is for row `k`. */
  predicate Completed(cs: seq<Completion>, k: nat)
  {
    exists c :: c in cs && c.index == k
  }

  /** Starting from a pending batch, with each row completing at most once,
      every row is well formed, and a row is still loading exactly when no
      event for it has arrived. */
  lemma BatchWellFormed(batch: seq<GeneratedImage>, cs: seq<Completion>, k: nat)
    requires forall j :: 0 <= j < |batch| ==> IsPending(batch[j])
    requires DistinctIndices(cs)
    requires k < |batch|
    ensures WellFormed(ApplyAll(batch, cs)[k])
    ensures ApplyAll(batch, cs)[k].isLoading <==> !Completed(cs, k)
  {
    ApplyAllAt(batch, cs, k);
  }

  /** Once every row of a pending batch has completed exactly once, no row is
      loading and each holds exactly one of an image URL and an error. */
  lemma AllSettled(batch: seq<GeneratedImage>, cs: seq<Completion>)
    requires forall j :: 0 <= j < |batch| ==> IsPending(batch[j])
    requires DistinctIndices(cs)
    requires forall k :: 0 <= k < |batch| ==> Completed(cs, k)
    ensures forall k :: 0 <= k < |batch| ==>
      !ApplyAll(batch, cs)[k].isLoading && WellFormed(ApplyAll(batch, cs)[k])
  {
    forall k | 0 <= k < |batch|
      ensures !ApplyAll(batch, cs)[k].isLoading && WellFormed(ApplyAll(batch, cs)[k])
    {
      BatchWellFormed(batch, cs, k);
    }
  }

  /** The event task `index` produces for a call that settled as `call`:
      the `.then` branch on success, the `.catch` branch on failure. */
  function CompletionOf(index: nat, call: GeminiService.CallOutcome): (c: Completion)
    ensures c.index == index
    ensures c.Succeeded? <==> GeminiService.Outcome(call).Success?
    ensures c.Succeeded? ==> c.data == GeminiService.Outcome(call).value
    ensures c.Failed? ==> c.message == GeminiService.Outcome(call).error
  {
    match GeminiService.Outcome(call)
    case Success(data) => Succeeded(index, data)
    case Failure(message) => Failed(index, message)
  }

  /** The service never rejects with an empty message, so a task's row shows
      the service's message verbatim and the 'Failed to generate' fallback
      is never reached from it. */
  lemma ServiceMessageShownVerbatim(g: GeneratedImage, index: nat, call: GeminiService.CallOutcome)
    requires GeminiService.Outcome(call).Failure?
    ensures Settle(g, CompletionOf(index, call)).error == Some(GeminiService.Outcome(call).error)
  {
  }

  /** The rows once every task of the batch has settled, row `k` by the
      outcome of its own call. */
  function Settled(batch: seq<GeneratedImage>, calls: seq<GeminiService.CallOutcome>): (r: seq<GeneratedImage>)
    requires |batch| == |calls|
    ensures |r| == |batch|
  {
    seq(|batch|, k requires 0 <= k < |batch| => Settle(batch[k], CompletionOf(k, calls[k])))
  }

  /** The completion events of the tasks `order` names, in that order: the
      `t`-th is task `order[t]`'s event for its own row. */
  function Tasks(calls: seq<GeminiService.CallOutcome>, order: seq<nat>): (cs: seq<Completion>)
    requires forall t :: 0 <= t < |order| ==> order[t] < |calls|
    ensures |cs| == |order|
    ensures forall t :: 0 <= t < |order| ==> cs[t] == CompletionOf(order[t], calls[order[t]])
    decreases |order|
  {
    if order == [] then []
    else
      var last := order[|order| - 1];
      Tasks(calls, order[..|order| - 1]) + [CompletionOf(last, calls[last])]
  }

  /** `order` lists every row below `n` exactly once: the order in which the
      concurrent tasks happen to settle. */
  predicate IsSchedule(order: seq<nat>, n: nat)
  {
    && (forall t :: 0 <= t < |order| ==> order[t] < n)
    && (forall s, t :: 0 <= s < t < |order| ==> order[s] != order[t])
    && (forall k :: 0 <= k < n ==> k in order)
  }

  /** Running the tasks in the order `order`, each making its one update,
      settles every row of a pending batch by its own call: the result is
      the same for every order. */
  lemma ScheduleSettlesAll(batch: seq<GeneratedImage>, calls: seq<GeminiService.CallOutcome>,
                           order: seq<nat>, cs: seq<Completion>)
    requires forall j :: 0 <= j < |batch| ==> IsPending(batch[j])
    requires |batch| == |calls| && IsSchedule(order, |calls|)
    requires |cs| == |order|
    requires forall t :: 0 <= t < |cs| ==> cs[t] == CompletionOf(order[t], calls[order[t]])
    ensures ApplyAll(batch, cs) == Settled(batch, calls)
    ensures forall k :: 0 <= k < |batch| ==>
      !ApplyAll(batch, cs)[k].isLoading && WellFormed(ApplyAll(batch, cs)[k])
  {
    ScheduleDistinct(calls, order, cs);
    var r := ApplyAll(batch, cs);
    var want := Settled(batch, calls);
    forall k | 0 <= k < |batch|
      ensures r[k] == want[k]
      ensures !r[k].isLoading && WellFormed(r[k])
    {
      assert k in order;
      var t :| 0 <= t < |order| && order[t] == k;
      var c := cs[t];
      assert c.index == k && c in cs;
      RowSettledByItsEvent(batch, cs, c);
      assert want[k] == Settle(batch[k], c);
      BatchWellFormed(batch, cs, k);
    }
  }

  /** In a batch whose rows complete at most once, the row of event `c`
      ends as `c` made it. */
  lemma RowSettledByItsEvent(batch: seq<GeneratedImage>, cs: seq<Completion>, c: Completion)
    requires DistinctIndices(cs)
    requires c in cs && c.index < |batch|
    ensures ApplyAll(batch, cs)[c.index] == Settle(batch[c.index], c)
  {
    EventForUnique(cs, c);
    ApplyAllAt(batch, cs, c.index);
  }

  /** The events of a schedule are for distinct rows. */
  lemma ScheduleDistinct(calls: seq<GeminiService.CallOutcome>, order: seq<nat>, cs: seq<Completion>)
    requires IsSchedule(order, |calls|)
    requires |cs| == |order|
    requires forall t :: 0 <= t < |cs| ==> cs[t] == CompletionOf(order[t], calls[order[t]])
    ensures DistinctIndices(cs)
  {
    assert forall t :: 0 <= t < |cs| ==> cs[t].index == order[t];
  }

  /** The page state that the run reads and writes. `batch` and
      `completions` record the rows as set at the last start and the
      events applied since. */
  class AppState {
    var originalImage: Option<ImageFile>
    var prompts: seq<Prompt>
    var results: seq<GeneratedImage>
    var isGenerating: bool
    ghost var batch: seq<GeneratedImage>
    ghost var completions: seq<Completion>

    ghost predicate Valid()
      reads this
    {
      && results == ApplyAll(batch, completions)
      && forall k :: 0 <= k < |batch| ==> IsPending(batch[k])
    }

    /** The initial state (lines 11-14); `initialId` stands for `Date.now()`. */
    constructor (initialId: int)
      ensures Valid()
      ensures originalImage == None && prompts == [Prompt(initialId, "")]
      ensures results == [] && !isGenerating
      ensures !CanGenerate()
    {
      originalImage := None;
      prompts := [Prompt(initialId, "")];
      results := [];
      isGenerating := false;
      batch := [];
      completions := [];
    }

    /** `canGenerate` (line 55): not generating, and the guard of line 17
        would let a run start. */
    function CanGenerate(): (b: bool)
      reads this
      ensures b <==> !isGenerating && !Refused(originalImage, prompts)
    {
      !isGenerating && originalImage.Some? && exists k :: 0 <= k < |prompts| && Trim(prompts[k].value) != ""
    }

    /** The uploader's `onImageUpload` callback. */
    method SetOriginalImage(image: Option<ImageFile>)
      modifies this`originalImage
      ensures originalImage == image
    {
      originalImage := image;
    }

    /** The prompt editor's `setPrompts`. */
    method SetPrompts(ps: seq<Prompt>)
      modifies this`prompts
      ensures prompts == ps
    {
      prompts := ps;
    }

    /** The synchronous start of `handleGenerateVariations` (lines 17-31):
        a refused run changes nothing; otherwise the flag is raised and the
        rows become the pending batch. */
    method Start() returns (started: bool)
      requires Valid()
      modifies this`results, this`isGenerating, this`batch, this`completions
      ensures Valid()
      ensures started <==> !Refused(originalImage, prompts)
      ensures !started ==> results == old(results) && isGenerating == old(isGenerating)
      ensures !started ==> batch == old(batch) && completions == old(completions)
      ensures started ==> isGenerating && results == InitialResults(prompts)
      ensures started ==> batch == results && completions == []
    {
      if originalImage.None? || forall k :: 0 <= k < |prompts| ==> Trim(prompts[k].value) == "" {
        return false;
      }
      isGenerating := true;
      results := InitialResults(prompts);
      batch := results;
      completions := [];
      started := true;
    }

    /** The `.then` update of task `index` (lines 36-40). */
    method Succeed(index: nat, data: string)
      requires Valid()
      modifies this`results, this`completions
      ensures Valid() && batch == old(batch)
      ensures completions == old(completions) + [Succeeded(index, data)]
      ensures results == Apply(old(results), Succeeded(index, data))
    {
      var prev := results;
      results := seq(|prev|, k requires 0 <= k < |prev| =>
        if k == index then prev[k].(imageUrl := Some(DataUrlPrefix + data), isLoading := false)
        else prev[k]);
      completions := completions + [Succeeded(index, data)];
      assert completions[..|completions| - 1] == old(completions);
    }

    /** The `.catch` update of task `index` (lines 43-47). */
    method Fail(index: nat, message: string)
      requires Valid()
      modifies this`results, this`completions
      ensures Valid() && batch == old(batch)
      ensures completions == old(completions) + [Failed(index, message)]
      ensures results == Apply(old(results), Failed(index, message))
    {
      var text := if message == [] then FailedToGenerate else message;
      var prev := results;
      results := seq(|prev|, k requires 0 <= k < |prev| =>
        if k == index then prev[k].(error := Some(text), isLoading := false)
        else prev[k]);
      completions := completions + [Failed(index, message)];
      assert completions[..|completions| - 1] == old(completions);
    }

    /** Line 52, after every task has settled. */
    method Finish()
      modifies this`isGenerating
      ensures !isGenerating
    {
      isGenerating := false;
    }

    /** One task (lines 33-48): call the service, then make its single
        update to row `index`. */
    method RunTask(index: nat, call: GeminiService.CallOutcome)
      requires Valid()
      modifies this`results, this`completions
      ensures Valid() && batch == old(batch)
      ensures completions == old(completions) + [CompletionOf(index, call)]
      ensures results == Apply(old(results), CompletionOf(index, call))
    {
      var outcome := GeminiService.GenerateImageVariation(call);
      match outcome {
        case Success(data) => Succeed(index, data);
        case Failure(message) => Fail(index, message);
      }
    }

    /** The tasks of a started run settling one after another, task
        `order[t]` as the `t`-th (lines 33-51). */
    method RunAll(calls: seq<GeminiService.CallOutcome>, order: seq<nat>)
      requires Valid() && completions == []
      requires forall t :: 0 <= t < |order| ==> order[t] < |calls|
      modifies this`results, this`completions
      ensures Valid() && batch == old(batch)
      ensures completions == Tasks(calls, order)
    {
      var j := 0;
      while j < |order|
        invariant 0 <= j <= |order|
        invariant Valid() && batch == old(batch)
        invariant completions == Tasks(calls, order[..j])
      {
        RunTask(order[j], calls[order[j]]);
        assert order[..j + 1][..j] == order[..j];
        j := j + 1;
      }
      assert order[..j] == order;
    }

    /** `handleGenerateVariations` as a whole (lines 16-53). `calls[k]` is how
        the call for row `k` settles, and `order` is the order in which the
        tasks settle. A started run ends with the flag lowered and every row
        settled by its own call, whatever the order. */
    method HandleGenerateVariations(calls: seq<GeminiService.CallOutcome>, order: seq<nat>)
      returns (started: bool)
      requires Valid()
      requires |calls| == Count(prompts, HasText)
      requires IsSchedule(order, |calls|)
      modifies this`results, this`isGenerating, this`batch, this`completions
      ensures Valid()
      ensures started <==> !Refused(originalImage, prompts)
      ensures !started ==> results == old(results) && isGenerating == old(isGenerating)
      ensures started ==> !isGenerating && results == Settled(InitialResults(prompts), calls)
      ensures started ==> forall k :: 0 <= k < |results| ==> !results[k].isLoading && WellFormed(results[k])
    {
      started := Start();
      if !started {
        return;
      }
      RunAll(calls, order);
      Finish();
      ScheduleSettlesAll(batch, calls, order, completions);
    }
  }
}
