/** Splitting the command's arguments into the optional `-<digits>` count
    flag and the search query (CommandFiles/commands/pin.ts, `entry`). */
module CommandArgs {
  import opened Common
  import opened Text

  /** The pattern `^-\d+$`: a dash and one or more ASCII digits, nothing else. */
  predicate IsCountFlag(a: string) {
    |a| >= 2 && a[0] == '-' && AllDigits(a[1..])
  }

  /** The count flags are exactly a dash followed by a non-empty run of
      digits: "-5" and "-007" are flags; "-", "--5", "-5a" and "5" are not. */
  lemma CountFlagPattern(a: string, ds: string)
    requires ds != [] && AllDigits(ds)
    ensures IsCountFlag("-" + ds)
    ensures IsCountFlag(a) ==> a == "-" + a[1..] && a[1..] != [] && AllDigits(a[1..])
    ensures !IsCountFlag("-") && !IsCountFlag("--5") && !IsCountFlag("-5a") && !IsCountFlag("5")
  {
    assert ("-" + ds)[1..] == ds;
    assert !IsDigit("--5"[1]) && !IsDigit("-5a"[2]);
  }

  /** `args.find(...)`: the position of the first count flag, if any. */
  function FindCountFlag(args: seq<string>): (r: Option<nat>)
    ensures r.Some? ==> r.value < |args| && IsCountFlag(args[r.value])
    ensures r.Some? ==> forall j :: 0 <= j < r.value ==> !IsCountFlag(args[j])
    ensures r.None? ==> forall j :: 0 <= j < |args| ==> !IsCountFlag(args[j])
  {
    if args == [] then None
    else if IsCountFlag(args[0]) then Some(0)
    else match FindCountFlag(args[1..])
      case None => None
      case Some(k) => Some(k + 1)
  }

  /** `args.filter((a) => a !== token)`: every copy of `token` goes, every
      other argument stays. */
  function RemoveAll(args: seq<string>, token: string): (r: seq<string>)
    ensures multiset(r) == multiset(args)[token := 0]
  {
    if args == [] then []
    else
      assert args == [args[0]] + args[1..];
      if args[0] == token then RemoveAll(args[1..], token)
      else [args[0]] + RemoveAll(args[1..], token)
  }

  /** Filtering keeps the order of what it keeps: it works piece by piece
      over a concatenation. */
  lemma {:induction false} RemoveAllAppend(a: seq<string>, b: seq<string>, token: string)
    ensures RemoveAll(a + b, token) == RemoveAll(a, token) + RemoveAll(b, token)
  {
    if a == [] {
      assert a + b == b;
    } else {
      assert (a + b)[0] == a[0] && (a + b)[1..] == a[1..] + b;
      RemoveAllAppend(a[1..], b, token);
    }
  }

  /** On a single argument the filter drops it exactly when it is the token. */
  lemma RemoveAllSingle(x: string, token: string)
    ensures RemoveAll([x], token) == if x == token then [] else [x]
  {
    assert [x][1..] == [];
  }

  /** What the command was asked: the count from the flag, if one was given,
      and the query text. */
  datatype Invocation = Invocation(count: Option<nat>, query: string)

  /** The arguments that make up the query: all of them when there is no
      count flag, otherwise all but the copies of the first flag's token. */
  function QueryWords(args: seq<string>): (words: seq<string>)
    ensures FindCountFlag(args).None? ==> words == args
    ensures FindCountFlag(args).Some? ==> forall w ::
      w in words <==> w in args && w != args[FindCountFlag(args).value]
  {
    match FindCountFlag(args)
    case None => args
    case Some(k) =>
      var r := RemoveAll(args, args[k]);
      assert forall w :: w in r <==> w in multiset(r);
      r
  }

  /** The first `-<digits>` argument gives the count, its digits read in
      base 10; the query is the other words joined with single spaces and
      trimmed. */
  function ParseInvocation(args: seq<string>): (inv: Invocation)
    ensures inv.count.Some? <==> exists k :: 0 <= k < |args| && IsCountFlag(args[k])
    ensures inv.query == [] || (!IsWhitespace(inv.query[0]) && !IsWhitespace(inv.query[|inv.query| - 1]))
  {
    var count := match FindCountFlag(args)
      case None => None
      case Some(k) => Some(DigitsValue(args[k][1..]));
    Invocation(count, Trim(JoinSpaces(QueryWords(args))))
  }

  /** The query is empty, and the command asks for one instead of searching,
      exactly when every query word is blank. */
  lemma QueryEmptyIff(args: seq<string>)
    ensures ParseInvocation(args).query == [] <==>
      forall k :: 0 <= k < |QueryWords(args)| ==> AllWhitespace(QueryWords(args)[k])
  {
    JoinBlankIff(QueryWords(args));
  }

  /** A flag `-n` (after no earlier flag) sets the count to `n`, whatever
      leading zeros it is written with. */
  lemma {:induction false} FlagGivesCount(args: seq<string>, k: nat, zeros: nat, n: nat)
    requires k < |args| && args[k] == "-" + seq(zeros, _ => '0') + ShowNat(n)
    requires forall j :: 0 <= j < k ==> !IsCountFlag(args[j])
    ensures FindCountFlag(args) == Some(k)
    ensures ParseInvocation(args).count == Some(n)
  {
    var ds := seq(zeros, _ => '0') + ShowNat(n);
    assert args[k][1..] == ds;
    assert FindCountFlag(args) == Some(k);
    LeadingZerosIgnored(zeros, ShowNat(n));
    DigitsValueShowNat(n);
  }

  /** Scenario: `dogs -5` searches for "dogs" with a count of 5. */
  lemma DogsFive()
    ensures ParseInvocation(["dogs", "-5"]) == Invocation(Some(5), "dogs")
  {
    var args := ["dogs", "-5"];
    assert !IsCountFlag("dogs");
    assert FindCountFlag(args) == Some(1);
    assert QueryWords(args) == ["dogs"] by {
      assert RemoveAll(args, "-5") == ["dogs"];
    }
    assert JoinSpaces(["dogs"]) == "dogs";
    assert Trim("dogs") == "dogs" by {
      assert !IsWhitespace('d') && !IsWhitespace('s');
      TrimKeepsTrimmed("dogs");
    }
    assert DigitsValue("5") == 5;
  }
}
