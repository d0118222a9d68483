/** Worked cases of the general results on concrete events. */
module Scenarios {
  import opened Events
  import opened Shaping
  import opened Runs

  /** `alice` pushes to her own repository `alice/repo`. */
  const AlicePush := Event("PushEvent", "alice", "alice/repo", "", "", "", 0, "", "", "", 0)

  /** A gist event, one of the skipped kinds. */
  const Gist := Event("GistEvent", "bob", "bob/notes", "", "", "", 0, "", "", "", 0)

  /** A push names its branch in `Payload.Ref` (`refs/heads/<branch>`),
      which the push line does not print: the collapse still shows the
      actor's own repository by its short name. */
  lemma BranchPush(e: Event, branch: string, name: string)
    requires ' ' !in e.actor && '/' !in e.actor
    requires e.refName == "refs/heads/" + branch
    requires e.repo == (e.actor + "/") + name
    ensures Collapse(Render(Push, e)) == e.actor + " push to " + name
  {
    LineOwnRepo(Push, e, name);
  }

  /** Someone else's repository keeps its owner. */
  lemma OtherOwnerLine()
    ensures Collapse("alice push to bob/repo") == "alice push to bob/repo"
  {
    var t := "alice" + " push to " + "bob";
    assert t[|t| - 5..] == "o bob";
    CollapseOtherOwner("alice", " push to ", "bob", "repo");
    assert ("alice" + " push to ") + (("bob" + "/") + "repo") == "alice push to bob/repo";
  }

  /** With the default `-m 0`, a gist first ends the loop after that one
      event, before a push that would have been written. */
  lemma GistFirstStops(limit: int, showDupes: bool, outs: seq<Option<string>>, n: nat)
    requires OutcomesOf([Gist, AlicePush], limit, outs)
    requires StopsAt(outs, 0, showDupes, {}, n)
    ensures n == 1 && Emitted(outs, n, showDupes, {}) == []
  {
    assert outs[0] == LineOf([Gist, AlicePush][0], limit);
    RunWrites(outs, 0, showDupes, n);
  }
}
