/** The string keys under which everything is kept in the one flat variable store. */
module VarKeys {
  import opened Decimal
  import opened Messages

  datatype Key =
    | PrevHeight(r: ReplicaID)
    | PrevRound(r: ReplicaID)
    | TotalRounds(r: ReplicaID)
    | TotalRoundFor(r: ReplicaID, at: HeightRound)
    | RoundsReceived(r: ReplicaID)
    | ExpectedSteps(r: ReplicaID)
    | CurrentHeightRound(r: ReplicaID)
    | BlockIdAt(height: int)
    | BlockIds
    | TestFinished
    | Faults
    | PartitionKey

  function Prefix(k: Key): string {
    match k
    case PrevHeight(_) => "BF_prev_height_"
    case PrevRound(_) => "BF_prev_round_"
    case TotalRounds(_) => "BF_total_rounds_"
    case TotalRoundFor(_, _) => "BF_total_round_"
    case RoundsReceived(_) => "BF_rounds_received_"
    case ExpectedSteps(_) => "BF_expected_steps_"
    case CurrentHeightRound(_) => "BF_current_height_round_"
    case BlockIdAt(_) => "BF_block_id_height_"
    case BlockIds => "BF_blockids"
    case TestFinished => "BF_test_finished"
    case Faults => "faults"
    case PartitionKey => "partition"
  }

  function Arguments(k: Key): string {
    match k
    case PrevHeight(r) => r
    case PrevRound(r) => r
    case TotalRounds(r) => r
    case TotalRoundFor(r, at) => r + "_" + Print(at.height) + "_" + Print(at.round)
    case RoundsReceived(r) => r
    case ExpectedSteps(r) => r
    case CurrentHeightRound(r) => r
    case BlockIdAt(h) => Print(h)
    case _ => ""
  }

  /** The string the source's key functions build with `Sprintf`. */
  function KeyString(k: Key): string {
    Prefix(k) + Arguments(k)
  }

  // Which constructor built a key, and what can be read of that from the string alone.

  function Family(k: Key): int {
    match k
    case PrevHeight(_) => 0
    case PrevRound(_) => 1
    case TotalRounds(_) => 2
    case TotalRoundFor(_, _) => 3
    case RoundsReceived(_) => 4
    case ExpectedSteps(_) => 5
    case CurrentHeightRound(_) => 6
    case BlockIdAt(_) => 7
    case BlockIds => 8
    case TestFinished => 9
    case Faults => 10
    case PartitionKey => 11
  }

  function FamilyOfString(s: string): int {
    if |s| < 6 then -1
    else if s[0] == 'f' then 10
    else if s[0] == 'p' then 11
    else if s[3] == 'r' then 4
    else if s[3] == 'e' then 5
    else if s[3] == 'c' then 6
    else if s[3] == 'p' then (if |s| > 8 && s[8] == 'h' then 0 else 1)
    else if s[3] == 'b' then (if |s| > 8 && s[8] == '_' then 7 else 8)
    else if s[4] == 'e' then 9
    else if |s| > 14 && s[14] == 's' then 2
    else 3
  }

  lemma FamilyOfPrefix(k: Key)
    ensures FamilyOfString(Prefix(k)) == Family(k)
  {
  }

  lemma FamilyIsReadable(k: Key)
    ensures FamilyOfString(KeyString(k)) == Family(k)
  {
    FamilyOfPrefix(k);
    var p, rest := Prefix(k), Arguments(k);
    if Family(k) >= 8 {
      assert p + rest == p;
    } else {
      assert |p| >= 14 && (Family(k) in {2, 3} ==> |p| >= 15);
      assert forall i :: 0 <= i < |p| ==> (p + rest)[i] == p[i];
    }
  }

  lemma CancelPrefix(p: string, a: string, b: string)
    requires p + a == p + b
    ensures a == b
  {
    assert a == (p + a)[|p|..];
    assert b == (p + b)[|p|..];
  }

  /** Reading from the right, the last underscore separates: whatever underscores
      the left part has, the two parts are determined. */
  lemma LastUnderscoreSplits(a: string, x: string, b: string, y: string)
    requires '_' !in x && '_' !in y
    requires a + "_" + x == b + "_" + y
    ensures a == b && x == y
  {
    var s := a + "_" + x;
    NoUnderscoreAfter(a, x);
    NoUnderscoreAfter(b, y);
    assert s[|a|] == '_' && s[|b|] == '_';
    assert a == s[..|a|] && b == s[..|b|];
    assert x == s[|a| + 1..] && y == s[|b| + 1..];
  }

  lemma NoUnderscoreAfter(a: string, x: string)
    requires '_' !in x
    ensures forall k :: |a| < k < |a + "_" + x| ==> (a + "_" + x)[k] != '_'
  {
    var s := a + "_" + x;
    forall k | |a| < k < |s| ensures s[k] != '_' {
      assert s[k] == x[k - |a| - 1];
    }
  }

  lemma TotalRoundArgumentsInjective(r: ReplicaID, at: HeightRound, r': ReplicaID, at': HeightRound)
    requires Arguments(TotalRoundFor(r, at)) == Arguments(TotalRoundFor(r', at'))
    ensures r == r' && at == at'
  {
    PrintHasNoUnderscore(at.height);
    PrintHasNoUnderscore(at'.height);
    PrintHasNoUnderscore(at.round);
    PrintHasNoUnderscore(at'.round);
    LastUnderscoreSplits(r + "_" + Print(at.height), Print(at.round), r' + "_" + Print(at'.height), Print(at'.round));
    LastUnderscoreSplits(r, Print(at.height), r', Print(at'.height));
    PrintInjective(at.height, at'.height);
    PrintInjective(at.round, at'.round);
  }

  /** Two different keys never share a string: every family is injective, for replica
      names with any characters and for all integers, and no two families overlap. */
  lemma KeyStringInjective(k: Key, k': Key)
    requires KeyString(k) == KeyString(k')
    ensures k == k'
  {
    FamilyIsReadable(k);
    FamilyIsReadable(k');
    CancelPrefix(Prefix(k), Arguments(k), Arguments(k'));
    if k.TotalRoundFor? {
      TotalRoundArgumentsInjective(k.r, k.at, k'.r, k'.at);
    } else if k.BlockIdAt? {
      PrintInjective(k.height, k'.height);
    }
  }
}
