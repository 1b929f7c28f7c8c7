/** Numeric resource ids (handlers/compute.go, repository/repository.go). */
module Ids {
  import opened Text

  predicate Digits(s: seq<char>) {
    forall c :: c in s ==> '0' <= c <= '9'
  }

  function Power10(n: nat): nat {
    if n == 0 then 1 else 10 * Power10(n - 1)
  }

  /** A digit string without leading zero denotes a number with as many digits. */
  lemma {:induction false} ValueBounds(s: string, power: nat)
    requires s != "" && Digits(s) && power == Power10(|s| - 1)
    ensures var lead := s[0] as int - '0' as int;
            lead * power <= Value(s) < lead * power + power
  {
    var n := |s| - 1;
    assert s[n] in s;
    if n == 0 {
      assert s[..0] == "";
      assert Value("") == 0;
    } else {
      var front, lead := s[..n], s[0] as int - '0' as int;
      assert forall c :: c in front ==> c in s;
      var less := Power10(n - 1);
      ValueBounds(front, less);
      TimesTen(lead, less, power);
    }
  }

  lemma TimesTen(lead: int, less: int, power: int)
    requires power == 10 * less
    ensures lead * power == 10 * (lead * less)
  {
  }

  /** Fill a buffer: the first digit from `lead`, the others from 0 to 9. The random draws are parameters. */
  method NumericId(length: nat, draws: seq<nat>, leads: nat) returns (id: string)
    requires 0 < length == |draws| && 0 < leads <= 9
    ensures |id| == length && Digits(id) && '1' <= id[0] && id[0] as int <= '0' as int + leads
  {
    var buf := new char[length];
    buf[0] := ('1' as int + draws[0] % leads) as char;
    for i := 1 to length
      invariant '1' <= buf[0] && buf[0] as int <= '0' as int + leads
      invariant forall j :: 0 <= j < i ==> '0' <= buf[j] <= '9'
    {
      buf[i] := ('0' as int + draws[i] % 10) as char;
    }
    id := buf[..];
  }

  /** The handlers' 18 digits with any lead, and the repository's 19 with a lead of at most 8, fit into a
      signed 64-bit integer. */
  method NumericIdsFit(draws: seq<nat>, handler: bool) returns (id: string)
    requires |draws| == if handler then 18 else 19
    ensures 0 < Value(id) < 0x8000_0000_0000_0000
  {
    id := NumericId(|draws|, draws, if handler then 9 else 8);
    PowersOfTen();
    ValueBounds(id, if handler then 100_000_000_000_000_000 else 1_000_000_000_000_000_000);
  }

  lemma PowersOfTen()
    ensures Power10(17) == 100_000_000_000_000_000 && Power10(18) == 1_000_000_000_000_000_000
  {
    assert Power10(5) == 100_000;
    assert Power10(10) == 10_000_000_000;
    assert Power10(15) == 1_000_000_000_000_000;
  }
}
