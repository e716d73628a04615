/**
 Roster lookups. The program resolves a player id by walking the whole roster
 and overwriting its variables at every entry whose `playerId` matches, so the
 entry that wins is the last matching one, and nothing is assigned when no
 entry matches.
 */
module Roster {
  import opened Feed

  /** `roster[k]` has id `id` and no later entry does. */
  ghost predicate IsLastMatch(roster: seq<RosterSpot>, id: int, k: int) {
    0 <= k < |roster| && roster[k].playerId == id
    && forall j :: k < j < |roster| ==> roster[j].playerId != id
  }

  lemma LastMatchShift(roster: seq<RosterSpot>, id: int)
    requires |roster| > 0
    ensures forall k :: IsLastMatch(roster[1..], id, k) ==> IsLastMatch(roster, id, k + 1) && roster[k + 1] == roster[1..][k]
  {
  }

  /**
   The overwriting loop: walk `roster` front to back, replacing `acc` by every
   entry whose id is `id`.
   */
  function Overwrite(roster: seq<RosterSpot>, id: int, acc: Option<RosterSpot>): (r: Option<RosterSpot>)
    ensures (forall k :: 0 <= k < |roster| ==> roster[k].playerId != id) ==> r == acc
    ensures (exists k :: 0 <= k < |roster| && roster[k].playerId == id) ==>
              exists k :: IsLastMatch(roster, id, k) && r == Some(roster[k])
    decreases |roster|
  {
    if |roster| == 0 then acc
    else
      var acc' := if roster[0].playerId == id then Some(roster[0]) else acc;
      var r := Overwrite(roster[1..], id, acc');
      LastMatchShift(roster, id);
      assert roster[0].playerId == id && (forall k :: 0 <= k < |roster[1..]| ==> roster[1..][k].playerId != id)
             ==> IsLastMatch(roster, id, 0);
      assert forall k :: 1 <= k < |roster| ==> roster[k] == roster[1..][k - 1];
      r
  }

  /** The roster entry an id resolves to, or `None` when the variables stay unassigned. */
  function LastMatch(roster: seq<RosterSpot>, id: int): (r: Option<RosterSpot>)
    ensures r.None? <==> forall k :: 0 <= k < |roster| ==> roster[k].playerId != id
    ensures r.Some? ==> exists k :: IsLastMatch(roster, id, k) && roster[k] == r.value
  {
    Overwrite(roster, id, None)
  }

  /** There is at most one last match. */
  lemma LastMatchUnique(roster: seq<RosterSpot>, id: int, k1: int, k2: int)
    requires IsLastMatch(roster, id, k1) && IsLastMatch(roster, id, k2)
    ensures k1 == k2
  {
  }

  /** The lookup only depends on entries carrying the id looked up. */
  lemma LastMatchIgnoresOtherIds(roster: seq<RosterSpot>, spot: RosterSpot, id: int)
    requires spot.playerId != id
    ensures LastMatch(roster + [spot], id) == LastMatch(roster, id)
  {
    var ext := roster + [spot];
    assert forall k :: 0 <= k < |roster| ==> ext[k] == roster[k];
    var a := LastMatch(ext, id);
    var b := LastMatch(roster, id);
    if a.Some? {
      var k :| IsLastMatch(ext, id, k) && ext[k] == a.value;
      assert IsLastMatch(roster, id, k);
      var k2 :| IsLastMatch(roster, id, k2) && roster[k2] == b.value;
      LastMatchUnique(roster, id, k, k2);
    }
  }
}
