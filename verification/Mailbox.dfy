/**
  The mailbox of a peer, which another thread fills: what it holds, and what will still arrive,
  in batches, one of which is delivered each time the mailbox is locked.
 */
module Mailbox {
  import opened Words
  import opened Messages

  datatype Box = Box(inbox: seq<Message>, net: seq<seq<Message>>)

  ghost function Flatten(net: seq<seq<Message>>): seq<Message> {
    if net == [] then [] else net[0] + Flatten(net[1..])
  }

  /** Everything that is or will be in the mailbox, in order. */
  ghost function StreamOf(b: Box): seq<Message> {
    b.inbox + Flatten(b.net)
  }

  /** The mailbox once it is locked. */
  function Delivered(b: Box): Box {
    if b.net == [] then b else Box(b.inbox + b.net[0], b.net[1..])
  }

  /** What a look at the mailbox finds: its first message, if there is one. */
  function Found(b: Box): Option<Message> {
    var d := Delivered(b);
    if d.inbox == [] then None else Some(d.inbox[0])
  }

  /** The mailbox after such a look, which takes the message out. */
  function Looked(b: Box): Box {
    var d := Delivered(b);
    if d.inbox == [] then d else Box(d.inbox[1..], d.net)
  }

  /** The mailbox with messages placed back. */
  function Back(b: Box, s: seq<Message>): Box {
    Box(b.inbox + s, b.net)
  }

  lemma LookedStream(b: Box)
    ensures StreamOf(b) == (match Found(b) case None => [] case Some(m) => [m]) + StreamOf(Looked(b))
    ensures Found(b) == None ==> Looked(b).inbox == []
  {
    var d := Delivered(b);
    if b.net != [] { assert StreamOf(d) == StreamOf(b); }
    if d.inbox != [] { assert d.inbox == [d.inbox[0]] + d.inbox[1..]; }
  }

  lemma NothingFound(b: Box)
    requires StreamOf(b) == []
    ensures Found(b) == None && StreamOf(Looked(b)) == []
  {
    LookedStream(b);
  }

  // ------------------------------------------------------------- repeated looks

  /** The mailbox after k looks. */
  function After(b: Box, k: nat): Box {
    if k == 0 then b else Looked(After(b, k - 1))
  }

  /** What k looks have taken out. */
  function Taken(b: Box, k: nat): (s: seq<Message>)
    ensures |s| <= k
  {
    if k == 0 then [] else Taken(b, k - 1) + (match Found(After(b, k - 1)) case None => [] case Some(m) => [m])
  }

  /** How many of k looks have found nothing. */
  function Misses(b: Box, k: nat): nat {
    k - |Taken(b, k)|
  }

  lemma TakenStep(b: Box, k: nat)
    requires k > 0
    ensures Taken(b, k) == Taken(b, k - 1) || |Taken(b, k)| == |Taken(b, k - 1)| + 1
  {
    hide Found, After;
  }

  lemma {:induction false} TakenThenRest(b: Box, k: nat)
    ensures Taken(b, k) + StreamOf(After(b, k)) == StreamOf(b)
  {
    hide StreamOf;
    if k > 0 {
      TakenThenRest(b, k - 1);
      LookedStream(After(b, k - 1));
    }
  }

  lemma {:induction false} TakenGrows(b: Box, j: nat, k: nat)
    requires j <= k
    ensures Taken(b, j) <= Taken(b, k) && Misses(b, j) <= Misses(b, k)
    decreases k
  {
    if j < k { TakenGrows(b, j, k - 1); }
  }

  /** A beginning of what was taken is what fewer looks have taken. */
  lemma {:induction false} BeginningTaken(b: Box, k: nat, i: nat) returns (j: nat)
    requires i <= |Taken(b, k)|
    ensures j <= k && Taken(b, j) == Taken(b, k)[..i] && (i < |Taken(b, k)| ==> j < k)
    ensures i > 0 ==> j > 0 && Found(After(b, j - 1)) == Some(Taken(b, k)[i - 1])
    decreases k
  {
    hide Found, After;
    if i < |Taken(b, k)| {
      j := BeginningTaken(b, k - 1, i);
      assert Taken(b, k)[..i] == Taken(b, k - 1)[..i];
    } else if k > 0 && |Taken(b, k - 1)| == i {
      j := BeginningTaken(b, k - 1, i);
    } else {
      j := k;
      assert Taken(b, k)[..i] == Taken(b, k);
    }
  }

  /** The first looks take what is in the mailbox when it is first locked, in order. */
  lemma {:induction false} LockedTaken(b: Box, k: nat)
    requires k <= |Delivered(b).inbox|
    ensures Taken(b, k) == Delivered(b).inbox[..k] && Misses(b, k) == 0
    ensures k > 0 ==> Delivered(b).inbox[k..] <= After(b, k).inbox
  {
    if k > 0 {
      LockedTaken(b, k - 1);
      var d, a := Delivered(b).inbox, After(b, k - 1);
      if k == 1 {
        assert Delivered(a).inbox[1..] == d[1..];
      } else {
        assert a.inbox[0] == d[k - 1] && Delivered(a).inbox[0] == d[k - 1];
        assert d[k..] == d[k - 1..][1..];
      }
      assert d[..k] == d[..k - 1] + [d[k - 1]];
    }
  }
}
