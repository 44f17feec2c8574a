/**
 * The guest e-mail list of the trip-creation screen: an ordered list of
 * addresses, the text typed into the e-mail input, and the add and remove
 * handlers. The e-mail syntax check is not part of this model; it is the
 * `validEmail` parameter.
 */
module GuestEmails {

  /** What `handleAddEmail` reports. */
  datatype AddOutcome = Added | InvalidEmail | AlreadyAdded

  /** The list and the input field after `handleAddEmail`. */
  datatype AddResult = AddResult(emails: seq<string>, input: string, outcome: AddOutcome)

  /** No address occurs twice. */
  predicate NoDuplicates(emails: seq<string>)
  {
    forall i, j :: 0 <= i < j < |emails| ==> emails[i] != emails[j]
  }

  /**
   * Whether the duplicate check fires. The search returns the matching
   * element itself and its result is tested for truthiness; the empty string
   * is falsy, so an existing "" entry does not count as already added.
   */
  predicate FoundTruthy(emails: seq<string>, candidate: string)
  {
    candidate in emails && candidate != ""
  }

  /**
   * `handleAddEmail`: an address the validator rejects, or one already in the
   * list, leaves list and input alone; anything else is appended at the end
   * and the input is cleared.
   */
  function AddEmail(emails: seq<string>, input: string, validEmail: string -> bool): (r: AddResult)
    ensures r.outcome == InvalidEmail <==> !validEmail(input)
    ensures r.outcome == AlreadyAdded <==> validEmail(input) && input in emails && input != ""
    ensures r.outcome != Added ==> r.emails == emails && r.input == input
    ensures r.outcome == Added ==> r.emails == emails + [input] && r.input == ""
  {
    if !validEmail(input) then AddResult(emails, input, InvalidEmail)
    else if FoundTruthy(emails, input) then AddResult(emails, input, AlreadyAdded)
    else AddResult(emails + [input], "", Added)
  }

  /** Adding keeps a list without duplicates free of them, unless "" is a valid address. */
  lemma AddEmailKeepsNoDuplicates(emails: seq<string>, input: string, validEmail: string -> bool)
    requires NoDuplicates(emails)
    requires !validEmail("")
    ensures NoDuplicates(AddEmail(emails, input, validEmail).emails)
  {
    var r := AddEmail(emails, input, validEmail);
    if r.outcome == Added {
      assert input !in emails;
      forall i, j | 0 <= i < j < |r.emails|
        ensures r.emails[i] != r.emails[j]
      {
        if j == |emails| {
          assert r.emails[i] == emails[i];
        }
      }
    }
  }

  /** Adding keeps every listed address one the validator accepted. */
  lemma AddEmailKeepsValid(emails: seq<string>, input: string, validEmail: string -> bool)
    requires forall i :: 0 <= i < |emails| ==> validEmail(emails[i])
    ensures var r := AddEmail(emails, input, validEmail).emails;
            forall i :: 0 <= i < |r| ==> validEmail(r[i])
  {
  }

  /**
   * The truthiness gap: were the validator to accept "", the check would let
   * a second "" into the list.
   */
  lemma EmptyAddressCanRepeat()
    ensures AddEmail([""], "", _ => true).emails == ["", ""]
    ensures !NoDuplicates(AddEmail([""], "", _ => true).emails)
  {
    var r := AddEmail([""], "", _ => true);
    assert r.emails[0] == r.emails[1];
  }

  /**
   * `handleRemoveEmail`: the list filtered to the addresses that differ from
   * the target. Every copy of the target goes, every other address keeps its
   * count and its order.
   */
  function RemoveEmail(emails: seq<string>, target: string): (r: seq<string>)
    ensures target !in r
    ensures multiset(r) == multiset(emails)[target := 0]
    ensures |r| <= |emails|
  {
    if |emails| == 0 then []
    else
      var rest := RemoveEmail(emails[1..], target);
      assert emails == [emails[0]] + emails[1..];
      if emails[0] == target then rest else [emails[0]] + rest
  }

  /** Filtering distributes over concatenation, so survivors keep their relative order. */
  lemma {:induction false} RemoveEmailConcat(a: seq<string>, b: seq<string>, target: string)
    ensures RemoveEmail(a + b, target) == RemoveEmail(a, target) + RemoveEmail(b, target)
  {
    if |a| == 0 {
      assert a + b == b;
    } else {
      assert (a + b)[1..] == a[1..] + b;
      RemoveEmailConcat(a[1..], b, target);
    }
  }

  /** Removing an address that is not listed changes nothing. */
  lemma {:induction false} RemoveAbsentIsNoOp(emails: seq<string>, target: string)
    requires target !in emails
    ensures RemoveEmail(emails, target) == emails
  {
    if |emails| > 0 {
      RemoveAbsentIsNoOp(emails[1..], target);
      assert emails == [emails[0]] + emails[1..];
    }
  }

  /** Removing twice is removing once. */
  lemma RemoveEmailIdempotent(emails: seq<string>, target: string)
    ensures RemoveEmail(RemoveEmail(emails, target), target) == RemoveEmail(emails, target)
  {
    RemoveAbsentIsNoOp(RemoveEmail(emails, target), target);
  }

  /** A list without duplicates stays so after a removal. */
  lemma {:induction false} RemoveEmailKeepsNoDuplicates(emails: seq<string>, target: string)
    requires NoDuplicates(emails)
    ensures NoDuplicates(RemoveEmail(emails, target))
  {
    if |emails| > 0 {
      RemoveEmailKeepsNoDuplicates(emails[1..], target);
      var rest := RemoveEmail(emails[1..], target);
      if emails[0] != target {
        assert emails[0] !in emails[1..];
        assert emails[0] !in multiset(rest);
        var r := [emails[0]] + rest;
        forall i, j | 0 <= i < j < |r|
          ensures r[i] != r[j]
        {
          if i == 0 {
            assert r[j] in rest;
          } else {
            assert r[i] == rest[i - 1] && r[j] == rest[j - 1];
          }
        }
      }
    }
  }

  /** Every address left after a removal was listed before. */
  lemma RemoveEmailSubset(emails: seq<string>, target: string)
    ensures forall e :: e in RemoveEmail(emails, target) ==> e in emails && e != target
  {
    var r := RemoveEmail(emails, target);
    forall e | e in r
      ensures e in emails && e != target
    {
      assert e in multiset(r);
    }
  }
}
