/**
  The text the component writes into its polite live region after a task is
  added or deleted. The live region holds one message at a time; a later
  message overwrites an earlier one.

  `Parse` is the listener's side: it recovers what happened, and to which task,
  from the announced text alone. `ParseAnnounce` shows that nothing is lost.
 */
module Announcements {

  datatype Option<+T> = None | Some(value: T)

  /** What a message in the live region reports. */
  datatype Announcement = Added(name: string) | Deleted(name: string)

  const Lead: string := "Task called "
  const AddedTail: string := " added"
  const DeletedTail: string := " deleted"

  /** The message written for an announcement, e.g. "Task called Buy milk added". */
  function Announce(a: Announcement): (msg: string)
    ensures |msg| >= |Lead| + |a.name| && msg[..|Lead|] == Lead
    ensures a.Added? ==> |msg| == |Lead| + |a.name| + |AddedTail| && msg[|msg| - |AddedTail|..] == AddedTail
    ensures a.Deleted? ==> |msg| == |Lead| + |a.name| + |DeletedTail| && msg[|msg| - |DeletedTail|..] == DeletedTail
    ensures msg[|Lead|..|Lead| + |a.name|] == a.name
  {
    match a
    case Added(name) => Lead + name + AddedTail
    case Deleted(name) => Lead + name + DeletedTail
  }

  /** Reads an announcement back from the live-region text, if it is one. */
  function Parse(msg: string): (r: Option<Announcement>)
    ensures r.Some? ==> Announce(r.value) == msg
  {
    if |msg| >= |Lead| + |AddedTail| && msg[..|Lead|] == Lead
       && msg[|msg| - |AddedTail|..] == AddedTail
    then
      var a := Added(msg[|Lead|..|msg| - |AddedTail|]);
      assert Announce(a) == msg by { SplitThree(msg, |Lead|, |msg| - |AddedTail|); }
      Some(a)
    else if |msg| >= |Lead| + |DeletedTail| && msg[..|Lead|] == Lead
       && msg[|msg| - |DeletedTail|..] == DeletedTail
    then
      var a := Deleted(msg[|Lead|..|msg| - |DeletedTail|]);
      assert Announce(a) == msg by { SplitThree(msg, |Lead|, |msg| - |DeletedTail|); }
      Some(a)
    else
      None
  }

  /** A sequence is the concatenation of its three slices at `i` and `j`. */
  lemma SplitThree<T>(s: seq<T>, i: nat, j: nat)
    requires i <= j <= |s|
    ensures s[..i] + s[i..j] + s[j..] == s
  {
  }

  /** The "deleted" tail never ends like the "added" tail. */
  lemma TailsDiffer(msg: string)
    requires |msg| >= |DeletedTail| && msg[|msg| - |DeletedTail|..] == DeletedTail
    ensures msg[|msg| - |AddedTail|..] != AddedTail
  {
    assert msg[|msg| - |AddedTail|] == DeletedTail[|DeletedTail| - |AddedTail|];
  }

  /** Every announcement is read back exactly: kind and task name. */
  lemma ParseAnnounce(a: Announcement)
    ensures Parse(Announce(a)) == Some(a)
  {
    var msg := Announce(a);
    if a.Deleted? {
      TailsDiffer(msg);
    }
    assert msg[|Lead|..|Lead| + |a.name|] == a.name;
  }

  /** Different announcements produce different messages, so a screen reader
      user can always tell an addition from a deletion, and which task it was. */
  lemma AnnounceInjective(a: Announcement, b: Announcement)
    ensures Announce(a) == Announce(b) <==> a == b
  {
    if Announce(a) == Announce(b) {
      ParseAnnounce(a);
      ParseAnnounce(b);
    }
  }
}
