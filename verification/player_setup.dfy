/** The player setup form (PlayerSetup.tsx): four names typed per team,
    trimmed, checked for blanks and for case-insensitive duplicates, and
    seated in alternating team order with Team A's first player dealing. */
module PlayerSetup {
  import opened Outcomes
  import opened TichuTypes
  import opened Game

  /** The characters `String.prototype.trim` strips: the ECMAScript
      WhiteSpace and LineTerminator code points. */
  predicate IsSpace(c: char) {
    || c == '\t' || c == '\n' || c == '\U{000B}' || c == '\U{000C}' || c == '\r'
    || c == ' ' || c == '\U{00A0}' || c == '\U{1680}'
    || ('\U{2000}' <= c <= '\U{200A}')
    || c == '\U{2028}' || c == '\U{2029}' || c == '\U{202F}' || c == '\U{205F}'
    || c == '\U{3000}' || c == '\U{FEFF}'
  }

  /** How many whitespace characters open `s`. */
  function LeadingSpaces(s: string): (n: nat)
    ensures n <= |s|
    ensures forall j :: 0 <= j < n ==> IsSpace(s[j])
    ensures n < |s| ==> !IsSpace(s[n])
    decreases |s|
  {
    if |s| == 0 || !IsSpace(s[0]) then 0
    else
      var n := 1 + LeadingSpaces(s[1..]);
      assert forall j :: 1 <= j < n ==> s[j] == s[1..][j - 1];
      n
  }

  /** How many whitespace characters close `s`. */
  function TrailingSpaces(s: string): (n: nat)
    ensures n <= |s|
    ensures forall j :: |s| - n <= j < |s| ==> IsSpace(s[j])
    ensures n < |s| ==> !IsSpace(s[|s| - n - 1])
    decreases |s|
  {
    if |s| == 0 || !IsSpace(s[|s| - 1]) then 0
    else 1 + TrailingSpaces(s[..|s| - 1])
  }

  /** `String.prototype.trim`: the slice of `s` between its leading and
      its trailing run of whitespace; empty when `s` is all whitespace. */
  function Trim(s: string): (r: string)
    ensures |r| == 0 <==> forall j :: 0 <= j < |s| ==> IsSpace(s[j])
    ensures |r| > 0 ==>
              && LeadingSpaces(s) < |s| - TrailingSpaces(s)
              && r == s[LeadingSpaces(s)..|s| - TrailingSpaces(s)]
              && !IsSpace(r[0]) && !IsSpace(r[|r| - 1])
  {
    var lead := LeadingSpaces(s);
    if lead == |s| then ""
    else
      var trail := TrailingSpaces(s);
      assert !IsSpace(s[lead]);
      assert lead < |s| - trail;
      s[lead..|s| - trail]
  }

  /** Trimming twice is trimming once. */
  lemma TrimIsIdempotent(s: string)
    ensures Trim(Trim(s)) == Trim(s)
  {
    var r := Trim(s);
    if |r| > 0 {
      assert LeadingSpaces(r) == 0;
      assert TrailingSpaces(r) == 0;
      assert r[0..|r| - 0] == r;
    }
  }

  /** `toLowerCase` on one character, for the letters A to Z. */
  function LowerChar(c: char): char {
    if 'A' <= c <= 'Z' then (c as int - 'A' as int + 'a' as int) as char else c
  }

  /** `String.prototype.toLowerCase`, restricted to the letters A to Z. */
  function ToLower(s: string): (r: string)
    ensures |r| == |s|
    ensures forall i :: 0 <= i < |s| ==> r[i] == LowerChar(s[i])
    decreases |s|
  {
    if |s| == 0 then "" else [LowerChar(s[0])] + ToLower(s[1..])
  }

  /** Lower-casing leaves no capital letter and changes nothing else. */
  lemma ToLowerMeaning(s: string)
    ensures forall i :: 0 <= i < |s| ==> !('A' <= ToLower(s)[i] <= 'Z')
    ensures forall i :: 0 <= i < |s| && !('A' <= s[i] <= 'Z') ==> ToLower(s)[i] == s[i]
    ensures ToLower(ToLower(s)) == ToLower(s)
  {
    var t := ToLower(s);
    forall i | 0 <= i < |s|
      ensures !('A' <= t[i] <= 'Z') && ToLower(t)[i] == t[i]
    {
      assert t[i] == LowerChar(s[i]);
    }
    assert ToLower(t) == t;
  }

  /** No element occurs twice. */
  predicate Distinct(s: seq<string>) {
    forall i, j :: 0 <= i < j < |s| ==> s[i] != s[j]
  }

  /** The `new Set(names).size !== names.length` test. */
  function ElementSet(s: seq<string>): set<string> {
    set x | x in s
  }

  /** A list is free of repeats iff its head does not recur and its tail
      is free of repeats. */
  lemma DistinctCons(s: seq<string>)
    requires |s| > 0
    ensures Distinct(s) <==> s[0] !in s[1..] && Distinct(s[1..])
  {
    var t := s[1..];
    if Distinct(s) {
      forall i, j | 0 <= i < j < |t|
        ensures t[i] != t[j]
      {
        assert t[i] == s[i + 1] && t[j] == s[j + 1];
      }
      forall k | 0 <= k < |t|
        ensures t[k] != s[0]
      {
        assert t[k] == s[k + 1];
      }
    }
    if s[0] !in t && Distinct(t) {
      forall i, j | 0 <= i < j < |s|
        ensures s[i] != s[j]
      {
        assert s[j] == t[j - 1];
        if i > 0 {
          assert s[i] == t[i - 1];
        }
      }
    }
  }

  /** The set of a list's elements has as many members as the list has
      entries exactly when no entry repeats. */
  lemma {:induction false} ElementSetSize(s: seq<string>)
    ensures |ElementSet(s)| <= |s|
    ensures |ElementSet(s)| == |s| <==> Distinct(s)
    decreases |s|
  {
    if |s| > 0 {
      var t := s[1..];
      ElementSetSize(t);
      DistinctCons(s);
      assert s == [s[0]] + t;
      assert ElementSet(s) == {s[0]} + ElementSet(t);
      if s[0] in t {
        assert ElementSet(s) == ElementSet(t);
      } else {
        assert s[0] !in ElementSet(t);
      }
    }
  }

  datatype SetupError = MissingName | DuplicateName

  /** The seating order around the table: A1, B1, A2, B2, names trimmed. */
  function SeatingOrder(teamAPlayer1: string, teamAPlayer2: string, teamBPlayer1: string, teamBPlayer2: string): (ps: seq<Player>)
    ensures |ps| == 4
    ensures ps[0].team == TeamA && ps[1].team == TeamB && ps[2].team == TeamA && ps[3].team == TeamB
    ensures ps[0].name == Trim(teamAPlayer1) && ps[1].name == Trim(teamBPlayer1)
    ensures ps[2].name == Trim(teamAPlayer2) && ps[3].name == Trim(teamBPlayer2)
  {
    [ Player(Trim(teamAPlayer1), TeamA), Player(Trim(teamBPlayer1), TeamB),
      Player(Trim(teamAPlayer2), TeamA), Player(Trim(teamBPlayer2), TeamB) ]
  }

  function LoweredNames(players: seq<Player>): (names: seq<string>)
    ensures |names| == |players|
    ensures forall i :: 0 <= i < |players| ==> names[i] == ToLower(players[i].name)
  {
    seq(|players|, i requires 0 <= i < |players| => ToLower(players[i].name))
  }

  /** Two names are the same up to the case of the letters A-Z. */
  predicate SameIgnoringCase(x: string, y: string) {
    |x| == |y| && forall k :: 0 <= k < |x| ==> LowerChar(x[k]) == LowerChar(y[k])
  }

  /** Lower-casing identifies two names exactly when they differ at most in
      the case of A-Z. */
  lemma ToLowerIdentifies(x: string, y: string)
    ensures ToLower(x) == ToLower(y) <==> SameIgnoringCase(x, y)
  {
    if ToLower(x) == ToLower(y) {
      forall k | 0 <= k < |x|
        ensures LowerChar(x[k]) == LowerChar(y[k])
      {
        assert ToLower(x)[k] == ToLower(y)[k];
      }
    }
    if SameIgnoringCase(x, y) {
      assert forall k :: 0 <= k < |x| ==> ToLower(x)[k] == ToLower(y)[k];
    }
  }

  /** The duplicate test read on the names as typed: the lower-cased names
      are free of repeats exactly when no two players' names are the same
      up to the case of A-Z. */
  lemma LoweredNamesDistinct(players: seq<Player>)
    ensures Distinct(LoweredNames(players)) <==>
              forall i, j :: 0 <= i < j < |players| ==> !SameIgnoringCase(players[i].name, players[j].name)
  {
    var names := LoweredNames(players);
    forall i, j | 0 <= i < j < |players|
      ensures names[i] == names[j] <==> SameIgnoringCase(players[i].name, players[j].name)
    {
      ToLowerIdentifies(players[i].name, players[j].name);
    }
  }

  /** `handleSubmit`: every trimmed name must be non-empty, and no two may
      agree once lower-cased; then the seated players go to the engine. */
  function StartPlayers(teamAPlayer1: string, teamAPlayer2: string, teamBPlayer1: string, teamBPlayer2: string): (r: Result<seq<Player>, SetupError>)
    ensures var ps := SeatingOrder(teamAPlayer1, teamAPlayer2, teamBPlayer1, teamBPlayer2);
            r == Failure(MissingName) <==> exists i :: 0 <= i < 4 && ps[i].name == ""
    ensures var ps := SeatingOrder(teamAPlayer1, teamAPlayer2, teamBPlayer1, teamBPlayer2);
            r == Failure(DuplicateName) <==> (forall i :: 0 <= i < 4 ==> ps[i].name != "") && !Distinct(LoweredNames(ps))
    ensures r.Success? ==> r.value == SeatingOrder(teamAPlayer1, teamAPlayer2, teamBPlayer1, teamBPlayer2)
    ensures r.Success? ==> (forall i :: 0 <= i < 4 ==> r.value[i].name != "") && Distinct(LoweredNames(r.value))
  {
    var ps := SeatingOrder(teamAPlayer1, teamAPlayer2, teamBPlayer1, teamBPlayer2);
    if exists i :: 0 <= i < 4 && ps[i].name == "" then Failure(MissingName)
    else
      var names := LoweredNames(ps);
      ElementSetSize(names);
      if |ElementSet(names)| != |names| then Failure(DuplicateName)
      else Success(ps)
  }

  /** In the seating order A, B, A, B each team's players are seats 0
      and 2, or 1 and 3. */
  lemma TeamsOfSeating(ps: seq<Player>)
    requires |ps| == 4
    requires ps[0].team == TeamA && ps[1].team == TeamB && ps[2].team == TeamA && ps[3].team == TeamB
    ensures TeamPlayers(ps, TeamA) == [ps[0], ps[2]]
    ensures TeamPlayers(ps, TeamB) == [ps[1], ps[3]]
  {
    var p1, p2, p3 := ps[1..], ps[2..], ps[3..];
    assert p1[1..] == p2 && p2[1..] == p3 && p3[1..] == [];
    assert p1[0] == ps[1] && p2[0] == ps[2] && p3[0] == ps[3];
    assert TeamPlayers(p3, TeamA) == [] && TeamPlayers(p3, TeamB) == [ps[3]];
    assert TeamPlayers(p2, TeamA) == [ps[2]] && TeamPlayers(p2, TeamB) == [ps[3]];
    assert TeamPlayers(p1, TeamA) == [ps[2]] && TeamPlayers(p1, TeamB) == [ps[1], ps[3]];
  }

  /** A successful setup starts a match: four players, Team A's first
      player dealing, and each team's two players in seating order. */
  lemma SetupStartsMatch(teamAPlayer1: string, teamAPlayer2: string, teamBPlayer1: string, teamBPlayer2: string)
    ensures var r := StartPlayers(teamAPlayer1, teamAPlayer2, teamBPlayer1, teamBPlayer2);
            r.Success? ==>
              var ps := r.value;
              var g := InitializeGame(ps);
              && g.Success? && g.value.gameStatus == InProgress
              && CurrentDealer(g.value) == Some(Player(Trim(teamAPlayer1), TeamA))
              && TeamPlayers(ps, TeamA) == [ps[0], ps[2]]
              && TeamPlayers(ps, TeamB) == [ps[1], ps[3]]
  {
    var r := StartPlayers(teamAPlayer1, teamAPlayer2, teamBPlayer1, teamBPlayer2);
    if r.Success? {
      var ps := r.value;
      assert ps == SeatingOrder(teamAPlayer1, teamAPlayer2, teamBPlayer1, teamBPlayer2);
      TeamsOfSeating(ps);
    }
  }
}
