/** The prompt editor's three list operations (components/PromptManager.tsx:13-25).
    Each builds a new list from the old one; the new id that the source takes
    from `Date.now()` is a parameter. */
module PromptManager {
  import opened Types
  import opened Seqs

  /** `addPrompt`: the old list followed by one empty prompt with the given id. */
  function AddPrompt(prompts: seq<Prompt>, newId: int): (r: seq<Prompt>)
    ensures |r| == |prompts| + 1
    ensures r[..|prompts|] == prompts
    ensures r[|prompts|] == Prompt(newId, "")
  {
    prompts + [Prompt(newId, "")]
  }

  /** The test `prompt.id !== id` of `removePrompt`, as a value. */
  function OtherThan(id: int): Prompt -> bool
  {
    (p: Prompt) => p.id != id
  }

  /** `removePrompt`: exactly the prompts whose id differs from `id`. */
  function RemovePrompt(prompts: seq<Prompt>, id: int): (r: seq<Prompt>)
    ensures |r| <= |prompts|
    ensures forall p :: p in r <==> p in prompts && p.id != id
  {
    Filter(prompts, OtherThan(id))
  }

  /** The rewrite `updatePrompt` applies to each prompt. */
  function Rewrite(p: Prompt, id: int, value: string): Prompt
  {
    if p.id == id then p.(value := value) else p
  }

  /** `updatePrompt`: same length, same ids in the same order; the prompts
      with id `id` get the new value, all others stay as they were. */
  function UpdatePrompt(prompts: seq<Prompt>, id: int, value: string): (r: seq<Prompt>)
    ensures |r| == |prompts|
    ensures forall k :: 0 <= k < |r| ==> r[k].id == prompts[k].id
    ensures forall k :: 0 <= k < |r| ==>
      r[k].value == (if prompts[k].id == id then value else prompts[k].value)
  {
    seq(|prompts|, k requires 0 <= k < |prompts| => Rewrite(prompts[k], id, value))
  }

  /** Whether some prompt carries id `id`. */
  predicate HasId(prompts: seq<Prompt>, id: int)
  {
    exists k :: 0 <= k < |prompts| && prompts[k].id == id
  }

  /** Removing an id that no prompt carries leaves the list as it is. */
  lemma RemoveAbsent(prompts: seq<Prompt>, id: int)
    requires !HasId(prompts, id)
    ensures RemovePrompt(prompts, id) == prompts
  {
    assert forall p :: p in prompts ==> OtherThan(id)(p);
    FilterKeepsAll(prompts, OtherThan(id));
  }

  /** Removal keeps the relative order: removing from a concatenation
      removes from each part. */
  lemma RemoveConcat(a: seq<Prompt>, b: seq<Prompt>, id: int)
    ensures RemovePrompt(a + b, id) == RemovePrompt(a, id) + RemovePrompt(b, id)
  {
    FilterConcat(a, b, OtherThan(id));
  }

  /** Removing twice is removing once. */
  lemma RemoveIdempotent(prompts: seq<Prompt>, id: int)
    ensures RemovePrompt(RemovePrompt(prompts, id), id) == RemovePrompt(prompts, id)
  {
    FilterIdempotent(prompts, OtherThan(id));
  }

  /** Adding a prompt and removing its id is removing the id alone; when the
      id was fresh, the round trip gives back the original list. */
  lemma RemoveAfterAdd(prompts: seq<Prompt>, newId: int)
    ensures RemovePrompt(AddPrompt(prompts, newId), newId) == RemovePrompt(prompts, newId)
    ensures !HasId(prompts, newId) ==> RemovePrompt(AddPrompt(prompts, newId), newId) == prompts
  {
    RemoveConcat(prompts, [Prompt(newId, "")], newId);
    assert RemovePrompt([Prompt(newId, "")], newId) == [];
    if !HasId(prompts, newId) {
      RemoveAbsent(prompts, newId);
    }
  }

  /** Updating an id that no prompt carries is the identity. */
  lemma UpdateAbsent(prompts: seq<Prompt>, id: int, value: string)
    requires !HasId(prompts, id)
    ensures UpdatePrompt(prompts, id, value) == prompts
  {
    var r := UpdatePrompt(prompts, id, value);
    forall k | 0 <= k < |prompts|
      ensures r[k] == prompts[k]
    {
      assert prompts[k].id != id;
    }
  }

  /** Updating twice with the same id and value is updating once. */
  lemma UpdateIdempotent(prompts: seq<Prompt>, id: int, value: string)
    ensures UpdatePrompt(UpdatePrompt(prompts, id, value), id, value) == UpdatePrompt(prompts, id, value)
  {
  }

  /** Removing an id after updating it is removing it: an edit never
      survives the removal of its row. */
  lemma {:induction false} RemoveAfterUpdate(prompts: seq<Prompt>, id: int, value: string)
    ensures RemovePrompt(UpdatePrompt(prompts, id, value), id) == RemovePrompt(prompts, id)
  {
    if prompts != [] {
      var u := UpdatePrompt(prompts, id, value);
      var tail := UpdatePrompt(prompts[1..], id, value);
      assert u[1..] == tail;
      assert OtherThan(id)(u[0]) == OtherThan(id)(prompts[0]);
      assert OtherThan(id)(prompts[0]) ==> u[0] == prompts[0];
      RemoveAfterUpdate(prompts[1..], id, value);
    }
  }
}
