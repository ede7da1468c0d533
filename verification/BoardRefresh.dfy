/** The two views of a board refresh, the engine's set of members and the table with credentials, agree. */
module BoardRefresh {
  import opened Options
  import BoardSpec
  import BoardTokens

  function Listed(joiners: seq<BoardTokens.Joiner>): seq<BoardSpec.NewMember> {
    if joiners == [] then []
    else [BoardSpec.NewMember(joiners[0].email, joiners[0].known)] + Listed(joiners[1..])
  }

  /** The same members join, and the refresh is refused for an unknown role in both or in neither. */
  lemma {:induction false} SameMembers(
      hash: BoardTokens.Digest, ms: BoardTokens.Members, board: string, joiners: seq<BoardTokens.Joiner>)
    ensures var (members, e) := BoardSpec.JoinAll(ms.Keys, Listed(joiners));
      && BoardTokens.JoinAll(hash, ms, board, joiners).Keys == members
      && (e == None <==> BoardTokens.AllKnown(joiners))
    decreases |joiners|
  {
    if joiners == [] {
    } else {
      var j, next := joiners[0], BoardTokens.JoinOne(hash, ms, board, joiners[0]);
      assert Listed(joiners)[1..] == Listed(joiners[1..]);
      assert j in joiners && joiners == [j] + joiners[1..];
      assert next.Keys == if j.email == "" then ms.Keys else ms.Keys + {j.email};
      SameMembers(hash, next, board, joiners[1..]);
    }
  }
}
