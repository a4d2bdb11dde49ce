/**
 * The classroom scoreboard: a list of teams with scores, and an inline editor
 * for one team's name at a time.
 */
module ScoreCounter {
  import opened Wrappers
  import opened TextUtil

  datatype Team = Team(id: int, name: string, score: int)

  /** The name a team gets when it is added, or when its name is saved blank. */
  function DefaultName(id: int): string {
    "Team " + IntToString(id)
  }

  /** No two teams share an id. */
  predicate DistinctIds(ts: seq<Team>) {
    forall i, j :: 0 <= i < j < |ts| ==> ts[i].id != ts[j].id
  }

  /** Every score is a non-negative count. */
  predicate NonNegativeScores(ts: seq<Team>) {
    forall i :: 0 <= i < |ts| ==> ts[i].score >= 0
  }

  /** The teams the board starts with. */
  const InitialTeams: seq<Team> := [Team(1, DefaultName(1), 0), Team(2, DefaultName(2), 0)]

  /** `prevTeams.map(...)` giving the team `teamId` one more point. */
  function Incremented(ts: seq<Team>, teamId: int): (r: seq<Team>)
    ensures |r| == |ts|
    ensures forall i :: 0 <= i < |ts| ==>
      r[i] == (if ts[i].id == teamId then ts[i].(score := ts[i].score + 1) else ts[i])
  {
    if ts == [] then []
    else [if ts[0].id == teamId then ts[0].(score := ts[0].score + 1) else ts[0]] + Incremented(ts[1..], teamId)
  }

  /** `prevTeams.map(...)` taking one point from the team `teamId`, never below zero. */
  function Decremented(ts: seq<Team>, teamId: int): (r: seq<Team>)
    ensures |r| == |ts|
    ensures forall i :: 0 <= i < |ts| ==>
      r[i] == (if ts[i].id == teamId then ts[i].(score := if ts[i].score - 1 > 0 then ts[i].score - 1 else 0) else ts[i])
  {
    if ts == [] then []
    else
      var t := ts[0];
      [if t.id == teamId then t.(score := if t.score - 1 > 0 then t.score - 1 else 0) else t] + Decremented(ts[1..], teamId)
  }

  /** Every score back to zero, ids, names and order kept. */
  function ScoresReset(ts: seq<Team>): (r: seq<Team>)
    ensures |r| == |ts|
    ensures forall i :: 0 <= i < |ts| ==> r[i] == ts[i].(score := 0)
  {
    if ts == [] then [] else [ts[0].(score := 0)] + ScoresReset(ts[1..])
  }

  /** The team `teamId` renamed. */
  function Renamed(ts: seq<Team>, teamId: int, name: string): (r: seq<Team>)
    ensures |r| == |ts|
    ensures forall i :: 0 <= i < |ts| ==> r[i] == (if ts[i].id == teamId then ts[i].(name := name) else ts[i])
  {
    if ts == [] then [] else [if ts[0].id == teamId then ts[0].(name := name) else ts[0]] + Renamed(ts[1..], teamId, name)
  }

  /** `Math.max(...ids)`. */
  function MaxId(ts: seq<Team>): (m: int)
    requires ts != []
    ensures forall i :: 0 <= i < |ts| ==> ts[i].id <= m
    ensures exists i :: 0 <= i < |ts| && ts[i].id == m
  {
    if |ts| == 1 then ts[0].id
    else
      var m := MaxId(ts[1..]);
      assert forall i :: 1 <= i < |ts| ==> ts[i] == ts[1..][i - 1];
      if ts[0].id > m then ts[0].id else m
  }

  /** The id of the next team: one more than the largest, or 1 on an empty board. */
  function NextId(ts: seq<Team>): (id: int)
    ensures forall i :: 0 <= i < |ts| ==> ts[i].id < id
  {
    if |ts| > 0 then MaxId(ts) + 1 else 1
  }

  /** The name a save writes: the trimmed edit text, or the default name when that is blank. */
  function SavedName(editText: string, teamId: int): string {
    var trimmed := Trim(editText);
    if trimmed != "" then trimmed else DefaultName(teamId)
  }

  /** A saved name is never blank and never has surrounding whitespace; a non-blank edit is kept, trimmed. */
  lemma SavedNameSpec(editText: string, teamId: int)
    ensures !IsBlank(SavedName(editText, teamId))
    ensures IsBlank(editText) ==> SavedName(editText, teamId) == DefaultName(teamId)
    ensures !IsBlank(editText) ==> SavedName(editText, teamId) == Trim(editText)
    ensures Trim(SavedName(editText, teamId)) == SavedName(editText, teamId)
  {
    TrimShape(editText);
    var d := DefaultName(teamId);
    NonSpaceStartNotBlank(d);
    var n := NatToString(if teamId < 0 then -teamId else teamId);
    assert d[|d| - 1] == n[|n| - 1];
    TrimNoop(d);
    TrimNoop(Trim(editText));
  }

  /** Taking a point back after giving one restores the board. */
  lemma DecrementUndoesIncrement(ts: seq<Team>, teamId: int)
    requires NonNegativeScores(ts)
    ensures Decremented(Incremented(ts, teamId), teamId) == ts
  {
    var r := Decremented(Incremented(ts, teamId), teamId);
    assert |r| == |ts|;
    forall i | 0 <= i < |ts| ensures r[i] == ts[i] {
    }
  }

  /** Adding a team keeps the ids distinct and the scores non-negative. */
  lemma AddedKeepsInvariants(ts: seq<Team>)
    requires DistinctIds(ts) && NonNegativeScores(ts)
    ensures var added := ts + [Team(NextId(ts), DefaultName(NextId(ts)), 0)];
      DistinctIds(added) && NonNegativeScores(added)
  {
  }

  /** Scoring steps touch only scores, and never push one below zero. */
  lemma ScoringKeepsInvariants(ts: seq<Team>, teamId: int)
    requires DistinctIds(ts) && NonNegativeScores(ts)
    ensures DistinctIds(Incremented(ts, teamId)) && NonNegativeScores(Incremented(ts, teamId))
    ensures DistinctIds(Decremented(ts, teamId)) && NonNegativeScores(Decremented(ts, teamId))
    ensures DistinctIds(ScoresReset(ts)) && NonNegativeScores(ScoresReset(ts))
  {
    IncrementedKeepsInvariants(ts, teamId);
    DecrementedKeepsInvariants(ts, teamId);
    ResetKeepsInvariants(ts);
  }

  lemma IncrementedKeepsInvariants(ts: seq<Team>, teamId: int)
    requires DistinctIds(ts) && NonNegativeScores(ts)
    ensures DistinctIds(Incremented(ts, teamId)) && NonNegativeScores(Incremented(ts, teamId))
  {
    var r := Incremented(ts, teamId);
    assert forall i :: 0 <= i < |ts| ==> r[i].id == ts[i].id;
  }

  lemma DecrementedKeepsInvariants(ts: seq<Team>, teamId: int)
    requires DistinctIds(ts) && NonNegativeScores(ts)
    ensures DistinctIds(Decremented(ts, teamId)) && NonNegativeScores(Decremented(ts, teamId))
  {
    var r := Decremented(ts, teamId);
    assert forall i :: 0 <= i < |ts| ==> r[i].id == ts[i].id;
  }

  lemma ResetKeepsInvariants(ts: seq<Team>)
    requires DistinctIds(ts)
    ensures DistinctIds(ScoresReset(ts)) && NonNegativeScores(ScoresReset(ts))
  {
    var r := ScoresReset(ts);
    assert forall i :: 0 <= i < |ts| ==> r[i].id == ts[i].id;
  }

  /** Renaming keeps ids and scores. */
  lemma RenamedKeepsInvariants(ts: seq<Team>, teamId: int, name: string)
    requires DistinctIds(ts) && NonNegativeScores(ts)
    ensures DistinctIds(Renamed(ts, teamId, name)) && NonNegativeScores(Renamed(ts, teamId, name))
  {
    var r := Renamed(ts, teamId, name);
    assert forall i :: 0 <= i < |ts| ==> r[i].id == ts[i].id && r[i].score == ts[i].score;
  }

  /** The name a blank save puts back in the editor: the team's current name, or the default one. */
  function RevertedName(ts: seq<Team>, teamId: int): string {
    if exists i :: 0 <= i < |ts| && ts[i].id == teamId then ts[FirstWithId(ts, teamId)].name else DefaultName(teamId)
  }

  /** A key pressed in the name editor. */
  datatype EditKey = Enter | Escape | OtherEditKey

  class Scoreboard {
    var teams: seq<Team>
    var editingTeamId: Option<int>
    var editingTeamName: string

    ghost predicate Valid()
      reads this
    {
      DistinctIds(teams) && NonNegativeScores(teams)
    }

    /** Two teams with ids 1 and 2, no points, no editor open. */
    constructor ()
      ensures teams == InitialTeams && editingTeamId == None && editingTeamName == ""
      ensures Valid()
    {
      teams := InitialTeams;
      editingTeamId := None;
      editingTeamName := "";
    }

    method Increment(teamId: int)
      requires Valid()
      modifies this
      ensures teams == Incremented(old(teams), teamId) && Valid()
      ensures editingTeamId == old(editingTeamId) && editingTeamName == old(editingTeamName)
    {
      IncrementedKeepsInvariants(teams, teamId);
      teams := Incremented(teams, teamId);
    }

    method Decrement(teamId: int)
      requires Valid()
      modifies this
      ensures teams == Decremented(old(teams), teamId) && Valid()
      ensures editingTeamId == old(editingTeamId) && editingTeamName == old(editingTeamName)
    {
      DecrementedKeepsInvariants(teams, teamId);
      teams := Decremented(teams, teamId);
    }

    method ResetScores()
      requires Valid()
      modifies this
      ensures teams == ScoresReset(old(teams)) && Valid()
      ensures editingTeamId == old(editingTeamId) && editingTeamName == old(editingTeamName)
    {
      ResetKeepsInvariants(teams);
      teams := ScoresReset(teams);
    }

    method AddTeam()
      requires Valid()
      modifies this
      ensures var id := NextId(old(teams));
        teams == old(teams) + [Team(id, DefaultName(id), 0)]
      ensures Valid()
      ensures editingTeamId == old(editingTeamId) && editingTeamName == old(editingTeamName)
    {
      var newTeamId := NextId(teams);
      teams := teams + [Team(newTeamId, DefaultName(newTeamId), 0)];
      AddedKeepsInvariants(old(teams));
    }

    /** A click on a team's name opens the editor on that name. */
    method TeamNameClick(team: Team)
      modifies this
      ensures editingTeamId == Some(team.id) && editingTeamName == team.name && teams == old(teams)
    {
      editingTeamId := Some(team.id);
      editingTeamName := team.name;
    }

    method TeamNameChange(text: string)
      modifies this
      ensures editingTeamName == text && editingTeamId == old(editingTeamId) && teams == old(teams)
    {
      editingTeamName := text;
    }

    /**
     * `handleTeamNameSave`: the team gets the saved name and the editor
     * closes; a blank edit text is also replaced, in the editor, by the
     * team's current name (or the default name).
     */
    method TeamNameSave(teamId: int)
      requires Valid()
      modifies this
      ensures teams == Renamed(old(teams), teamId, SavedName(old(editingTeamName), teamId)) && Valid()
      ensures editingTeamId == None
      ensures !IsBlank(old(editingTeamName)) ==> editingTeamName == old(editingTeamName)
      ensures IsBlank(old(editingTeamName)) ==> editingTeamName == RevertedName(old(teams), teamId)
    {
      var name := editingTeamName;
      if Trim(editingTeamName) == "" {
        editingTeamName := RevertedName(teams, teamId);
      }
      RenamedKeepsInvariants(teams, teamId, SavedName(name, teamId));
      teams := Renamed(teams, teamId, SavedName(name, teamId));
      editingTeamId := None;
    }

    /** Enter saves, Escape closes the editor and keeps every name. */
    method TeamNameKeyDown(key: EditKey, teamId: int)
      requires Valid()
      modifies this
      ensures key == Enter ==> teams == Renamed(old(teams), teamId, SavedName(old(editingTeamName), teamId)) && editingTeamId == None
      ensures key == Enter && !IsBlank(old(editingTeamName)) ==> editingTeamName == old(editingTeamName)
      ensures key == Enter && IsBlank(old(editingTeamName)) ==> editingTeamName == RevertedName(old(teams), teamId)
      ensures key == Escape ==> teams == old(teams) && editingTeamId == None && editingTeamName == old(editingTeamName)
      ensures key == OtherEditKey ==> teams == old(teams) && editingTeamId == old(editingTeamId) && editingTeamName == old(editingTeamName)
      ensures Valid()
    {
      if key == Enter {
        TeamNameSave(teamId);
      } else if key == Escape {
        editingTeamId := None;
      }
    }
  }

  /** `teams.find(t => t.id === teamId)`, as an index. */
  function FirstWithId(ts: seq<Team>, teamId: int): (i: int)
    requires exists i :: 0 <= i < |ts| && ts[i].id == teamId
    ensures 0 <= i < |ts| && ts[i].id == teamId
    ensures forall j :: 0 <= j < i ==> ts[j].id != teamId
  {
    if ts[0].id == teamId then 0
    else
      assert exists i :: 0 <= i < |ts[1..]| && ts[1..][i].id == teamId by {
        var i :| 0 <= i < |ts| && ts[i].id == teamId;
        assert ts[1..][i - 1] == ts[i];
      }
      1 + FirstWithId(ts[1..], teamId)
  }
}
