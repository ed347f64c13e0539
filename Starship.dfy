/**
 * Starship records: `create_starship`, boarding people into the "intruder"
 * and "passengers" buckets (`board_starship`) and docking a captured ship
 * (`capture_starship`). The two mutating operations are methods on a
 * `Record`, each proved against a function that gives the dict it leaves
 * behind, including the partial state when Python raises half-way.
 */
module Starship {
  import opened Values
  import opened Projection

  const StarshipKeys: set<string> := {"name", "model", "passengers", "max_atmosphering_speed", "length"}

  /** The keys `create_starship` copies with `.get(key, "")`. */
  const CopiedKeys: set<string> := {"name", "model", "max_atmosphering_speed", "length"}

  const Intruder: string := "intruder"
  const Passengers: string := "passengers"
  const Bay: string := "primary_docking_bay"
  const Docked: string := "docked"

  // ----- create_starship -----

  /** `create_starship(starship)` */
  function CreateStarship(starship: Fields): (r: Fields)
    ensures r.Keys == StarshipKeys
    ensures r[Passengers] == Lst([])
    ensures forall k :: k in CopiedKeys && k in starship ==> r[k] == starship[k]
    ensures forall k :: k in CopiedKeys && k !in starship ==> r[k] == Str("")
  {
    Project(starship, CopiedKeys)[Passengers := Lst([])]
  }

  /** Re-creating a created starship gives it back unchanged. */
  lemma CreateStarshipIdempotent(starship: Fields)
    ensures CreateStarship(CreateStarship(starship)) == CreateStarship(starship)
  {
  }

  // ----- board_starship -----

  /** The bucket a person goes to. */
  function BucketFor(isIntruder: bool): string
  {
    if isIntruder then Intruder else Passengers
  }

  /** One iteration of the boarding loop. */
  function BoardOne(d: Fields, person: Value, isIntruder: bool): (e: Exec)
    ensures e.Raised? <==> !Appendable(d, BucketFor(isIntruder))
    ensures e.Raised? ==> e == Raised(d, AttributeError)
    ensures e.Finished? ==> e.state == d[BucketFor(isIntruder) := Lst(Bucket(d, BucketFor(isIntruder)) + [person])]
    ensures BucketFor(isIntruder) !in d ==> e == Finished(d[BucketFor(isIntruder) := Lst([person])])
  {
    var key := BucketFor(isIntruder);
    if key !in d then assert Bucket(d, key) + [person] == [person]; Finished(d[key := Lst([person])])
    else match d[key]
      case Lst(items) => Finished(d[key := Lst(items + [person])])
      case _ => Raised(d, AttributeError)
  }

  /**
   * The dict `board_starship(d, people)` leaves behind, and whether it raised.
   * The only exception is AttributeError.
   */
  function Board(d: Fields, people: seq<(Value, bool)>): (e: Exec)
    ensures e.Raised? ==> e.error == AttributeError
    decreases |people|
  {
    if people == [] then Finished(d)
    else
      match Board(d, people[..|people| - 1])
      case Raised(s, err) => Raised(s, err)
      case Finished(s) => BoardOne(s, people[|people| - 1].0, people[|people| - 1].1)
  }

  /** The people carrying the given flag, in input order. */
  function Flagged(people: seq<(Value, bool)>, flag: bool): seq<Value>
    decreases |people|
  {
    if people == [] then []
    else Flagged(people[..|people| - 1], flag)
         + (if people[|people| - 1].1 == flag then [people[|people| - 1].0] else [])
  }

  /** The people, without their flags. */
  function PersonsOf(people: seq<(Value, bool)>): seq<Value>
    decreases |people|
  {
    if people == [] then [] else PersonsOf(people[..|people| - 1]) + [people[|people| - 1].0]
  }

  /** Every person lands in exactly one of the two buckets. */
  lemma {:induction false} FlaggedPartition(people: seq<(Value, bool)>)
    ensures multiset(Flagged(people, true)) + multiset(Flagged(people, false)) == multiset(PersonsOf(people))
    ensures |Flagged(people, true)| + |Flagged(people, false)| == |people|
    decreases |people|
  {
    if people != [] {
      FlaggedPartition(people[..|people| - 1]);
    }
  }

  /** Boarding keeps every key other than the two buckets as it was. */
  predicate SameOutsideBuckets(d: Fields, s: Fields)
  {
    && s.Keys - {Intruder, Passengers} == d.Keys - {Intruder, Passengers}
    && forall k :: k in d.Keys - {Intruder, Passengers} ==> k in s && s[k] == d[k]
  }

  lemma SameOutsideBucketsTransitive(d: Fields, s: Fields, t: Fields)
    requires SameOutsideBuckets(d, s) && SameOutsideBuckets(s, t)
    ensures SameOutsideBuckets(d, t)
  {
  }

  /** Everyone in `people` is headed for a bucket that is absent or a list. */
  predicate Boardable(d: Fields, people: seq<(Value, bool)>)
  {
    forall i :: 0 <= i < |people| ==> Appendable(d, BucketFor(people[i].1))
  }

  /** Boardability of a prefix follows from that of the whole. */
  lemma BoardablePrefix(d: Fields, people: seq<(Value, bool)>)
    requires people != [] && Boardable(d, people)
    ensures Boardable(d, people[..|people| - 1])
    ensures Appendable(d, BucketFor(people[|people| - 1].1))
  {
    var prefix := people[..|people| - 1];
    assert forall i :: 0 <= i < |prefix| ==> prefix[i] == people[i];
  }

  /** One boarding step, in the terms of `BoardAppends`. */
  lemma BoardOneAppends(s: Fields, person: Value, isIntruder: bool)
    requires Appendable(s, BucketFor(isIntruder))
    ensures BoardOne(s, person, isIntruder).Finished?
    ensures Bucket(BoardOne(s, person, isIntruder).state, BucketFor(isIntruder)) == Bucket(s, BucketFor(isIntruder)) + [person]
    ensures Bucket(BoardOne(s, person, isIntruder).state, BucketFor(!isIntruder)) == Bucket(s, BucketFor(!isIntruder))
  {
  }

  /** One boarding step, in the terms of `BoardKeepsOtherKeys`. */
  lemma BoardOneFrame(s: Fields, person: Value, isIntruder: bool)
    requires Appendable(s, BucketFor(isIntruder))
    ensures BoardOne(s, person, isIntruder).Finished?
    ensures BucketFor(isIntruder) in BoardOne(s, person, isIntruder).state
    ensures BucketFor(!isIntruder) in BoardOne(s, person, isIntruder).state <==> BucketFor(!isIntruder) in s
    ensures SameOutsideBuckets(s, BoardOne(s, person, isIntruder).state)
  {
  }

  /**
   * When everyone is headed for a bucket that is absent or a list, boarding
   * returns normally, and the bucket for `flag` is its old contents followed
   * by the people carrying that flag, in input order. The other bucket may
   * hold anything, as long as nobody is headed for it.
   */
  lemma {:induction false} BoardFillsBucket(d: Fields, people: seq<(Value, bool)>, flag: bool)
    requires Boardable(d, people)
    ensures Board(d, people).Finished?
    ensures Bucket(Board(d, people).state, BucketFor(flag)) == Bucket(d, BucketFor(flag)) + Flagged(people, flag)
    decreases |people|
  {
    if people != [] {
      var prefix, last := people[..|people| - 1], people[|people| - 1];
      BoardablePrefix(d, people);
      BoardFillsBucket(d, prefix, flag);
      assert Appendable(Board(d, prefix).state, BucketFor(last.1)) by {
        BoardRaises(d, prefix);
      }
      BoardFillsStep(d, people, flag);
    }
  }

  /** The inductive step of `BoardFillsBucket`: boarding the last person. */
  lemma BoardFillsStep(d: Fields, people: seq<(Value, bool)>, flag: bool)
    requires people != []
    requires Board(d, people[..|people| - 1]).Finished?
    requires Appendable(Board(d, people[..|people| - 1]).state, BucketFor(people[|people| - 1].1))
    requires Bucket(Board(d, people[..|people| - 1]).state, BucketFor(flag))
          == Bucket(d, BucketFor(flag)) + Flagged(people[..|people| - 1], flag)
    ensures Board(d, people).Finished?
    ensures Bucket(Board(d, people).state, BucketFor(flag)) == Bucket(d, BucketFor(flag)) + Flagged(people, flag)
  {
    var prefix, last := people[..|people| - 1], people[|people| - 1];
    var s := Board(d, prefix).state;
    assert Board(d, people) == BoardOne(s, last.0, last.1);
    BoardOneAppends(s, last.0, last.1);
    if last.1 == flag {
      assert Flagged(people, flag) == Flagged(prefix, flag) + [last.0];
    } else {
      assert BucketFor(last.1) == BucketFor(!flag);
      assert Flagged(people, flag) == Flagged(prefix, flag);
    }
  }

  /**
   * When everyone is headed for a bucket that is absent or a list, boarding
   * returns normally: each bucket is its old contents followed by the people
   * flagged for it, in input order, and which keys can be appended to is as
   * before.
   */
  lemma BoardAppends(d: Fields, people: seq<(Value, bool)>)
    requires Boardable(d, people)
    ensures Board(d, people).Finished?
    ensures Bucket(Board(d, people).state, Intruder) == Bucket(d, Intruder) + Flagged(people, true)
    ensures Bucket(Board(d, people).state, Passengers) == Bucket(d, Passengers) + Flagged(people, false)
    ensures forall k :: Appendable(Board(d, people).state, k) <==> Appendable(d, k)
  {
    BoardFillsBucket(d, people, true);
    BoardFillsBucket(d, people, false);
    BoardRaises(d, people);
  }

  /**
   * When boarding returns, a bucket exists exactly when it existed before or
   * someone was headed for it, and no other key changes.
   */
  lemma {:induction false} BoardKeepsOtherKeys(d: Fields, people: seq<(Value, bool)>)
    requires Boardable(d, people)
    ensures Board(d, people).Finished?
    ensures Intruder in Board(d, people).state <==> Intruder in d || Flagged(people, true) != []
    ensures Passengers in Board(d, people).state <==> Passengers in d || Flagged(people, false) != []
    ensures SameOutsideBuckets(d, Board(d, people).state)
    decreases |people|
  {
    if people != [] {
      var prefix, last := people[..|people| - 1], people[|people| - 1];
      BoardablePrefix(d, people);
      BoardKeepsOtherKeys(d, prefix);
      BoardRaises(d, prefix);
      var s := Board(d, prefix).state;
      assert Appendable(s, BucketFor(last.1));
      assert Board(d, people) == BoardOne(s, last.0, last.1);
      BoardOneFrame(s, last.0, last.1);
      SameOutsideBucketsTransitive(d, s, Board(d, people).state);
      if last.1 {
        assert Flagged(people, true) == Flagged(prefix, true) + [last.0];
        assert Flagged(people, false) == Flagged(prefix, false);
      } else {
        assert Flagged(people, false) == Flagged(prefix, false) + [last.0];
        assert Flagged(people, true) == Flagged(prefix, true);
      }
    }
  }

  /**
   * When boarding returns, every key holding something other than a list is
   * left as it was: nobody was headed for it, so Python never touched it.
   * This covers a bucket such as a raw "passengers" count nobody is sent to.
   */
  lemma {:induction false} BoardKeepsNonLists(d: Fields, people: seq<(Value, bool)>)
    ensures Board(d, people).Finished? ==>
      forall k :: k in d && !Appendable(d, k) ==> k in Board(d, people).state && Board(d, people).state[k] == d[k]
    decreases |people|
  {
    if people != [] {
      var prefix, last := people[..|people| - 1], people[|people| - 1];
      BoardKeepsNonLists(d, prefix);
      BoardRaises(d, prefix);
      if Board(d, people).Finished? {
        var s := Board(d, prefix).state;
        assert Board(d, people) == BoardOne(s, last.0, last.1);
        assert Appendable(d, BucketFor(last.1));
      }
    }
  }

  /** Together the two buckets grow by exactly the number of people boarded. */
  lemma BoardCounts(d: Fields, people: seq<(Value, bool)>)
    requires Boardable(d, people)
    ensures |Bucket(Board(d, people).state, Intruder)| == |Bucket(d, Intruder)| + |Flagged(people, true)|
    ensures |Bucket(Board(d, people).state, Passengers)| == |Bucket(d, Passengers)| + |Flagged(people, false)|
    ensures |Bucket(Board(d, people).state, Intruder)| + |Bucket(Board(d, people).state, Passengers)|
         == |Bucket(d, Intruder)| + |Bucket(d, Passengers)| + |people|
  {
    BoardAppends(d, people);
    FlaggedPartition(people);
  }

  /**
   * Boarding raises exactly when some person is headed for a bucket that
   * holds something other than a list; when it returns, which keys can be
   * appended to is as before.
   */
  lemma {:induction false} BoardRaises(d: Fields, people: seq<(Value, bool)>)
    ensures Board(d, people).Raised? <==> exists i :: 0 <= i < |people| && !Appendable(d, BucketFor(people[i].1))
    ensures Board(d, people).Raised? ==> Board(d, people).error == AttributeError
    ensures Board(d, people).Finished? ==> forall k :: Appendable(Board(d, people).state, k) <==> Appendable(d, k)
    decreases |people|
  {
    if people != [] {
      var prefix := people[..|people| - 1];
      BoardRaises(d, prefix);
      assert forall i :: 0 <= i < |prefix| ==> prefix[i] == people[i];
    }
  }

  /** Once boarding has raised, the later people change nothing: Python has left the loop. */
  lemma {:induction false} BoardRaisedSticks(d: Fields, people: seq<(Value, bool)>, j: nat)
    requires j <= |people| && Board(d, people[..j]).Raised?
    ensures Board(d, people) == Board(d, people[..j])
    decreases |people|
  {
    if j < |people| {
      var prefix := people[..|people| - 1];
      assert prefix[..j] == people[..j];
      BoardRaisedSticks(d, prefix, j);
    } else {
      assert people[..j] == people;
    }
  }

  /** The base case of `BoardStopsAtFirstBad`: the first bad person is the last one. */
  lemma BoardRaisesAtLast(d: Fields, people: seq<(Value, bool)>)
    requires people != [] && !Appendable(d, BucketFor(people[|people| - 1].1))
    requires forall i :: 0 <= i < |people| - 1 ==> Appendable(d, BucketFor(people[i].1))
    ensures Board(d, people[..|people| - 1]).Finished?
    ensures Board(d, people) == Raised(Board(d, people[..|people| - 1]).state, AttributeError)
  {
    var prefix, last := people[..|people| - 1], people[|people| - 1];
    assert forall i :: 0 <= i < |prefix| ==> Appendable(d, BucketFor(prefix[i].1));
    BoardRaises(d, prefix);
    assert !Appendable(Board(d, prefix).state, BucketFor(last.1));
  }

  /**
   * The person at index `j` is the first one headed for a bucket that is not
   * a list: everyone before has boarded, and the dict is left as it was at
   * that point.
   */
  lemma {:induction false} BoardStopsAtFirstBad(d: Fields, people: seq<(Value, bool)>, j: nat)
    requires j < |people| && !Appendable(d, BucketFor(people[j].1))
    requires forall i :: 0 <= i < j ==> Appendable(d, BucketFor(people[i].1))
    ensures Board(d, people[..j]).Finished?
    ensures Board(d, people) == Raised(Board(d, people[..j]).state, AttributeError)
    decreases |people|
  {
    var prefix := people[..|people| - 1];
    if |people| == j + 1 {
      assert prefix == people[..j];
      BoardRaisesAtLast(d, people);
    } else {
      assert prefix[..j] == people[..j];
      BoardStopsAtFirstBad(d, prefix, j);
    }
  }

  /**
   * Boarding a starship fresh from `create_starship`: its empty passenger
   * list receives the non-intruders, an intruder list appears only if there is
   * an intruder, no other key is added, and the other four fields stay.
   */
  lemma BoardCreatedStarship(starship: Fields, people: seq<(Value, bool)>)
    ensures Board(CreateStarship(starship), people).Finished?
    ensures Passengers in Board(CreateStarship(starship), people).state
    ensures Board(CreateStarship(starship), people).state[Passengers] == Lst(Flagged(people, false))
    ensures Intruder in Board(CreateStarship(starship), people).state <==> Flagged(people, true) != []
    ensures Flagged(people, true) != [] ==>
      Board(CreateStarship(starship), people).state[Intruder] == Lst(Flagged(people, true))
    ensures Board(CreateStarship(starship), people).state.Keys - {Intruder} == StarshipKeys
    ensures forall k :: k in CopiedKeys ==> Board(CreateStarship(starship), people).state[k] == CreateStarship(starship)[k]
  {
    assert Boardable(CreateStarship(starship), people);
    BoardAppends(CreateStarship(starship), people);
    BoardKeepsOtherKeys(CreateStarship(starship), people);
  }

  /** `board_starship(starship, people)` */
  method BoardStarship(starship: Record, people: seq<(Value, bool)>) returns (r: Result<Record>)
    modifies starship
    ensures starship.fields == Board(old(starship.fields), people).state
    ensures Board(old(starship.fields), people).Finished? ==> r == Ok(starship)
    ensures Board(old(starship.fields), people).Raised? ==> r == Err(Board(old(starship.fields), people).error)
  {
    ghost var d0 := starship.fields;
    var i := 0;
    while i < |people|
      invariant 0 <= i <= |people|
      invariant Board(d0, people[..i]) == Finished(starship.fields)
    {
      var (person, isIntruder) := people[i];
      assert people[..i + 1][..i] == people[..i];
      assert Board(d0, people[..i + 1]) == BoardOne(starship.fields, person, isIntruder);
      var bucket := BucketFor(isIntruder);
      if bucket in starship.fields {
        match starship.fields[bucket] {
          case Lst(items) => starship.fields := starship.fields[bucket := Lst(items + [person])];
          case _ => BoardRaisedSticks(d0, people, i + 1); return Err(AttributeError);
        }
      } else {
        starship.fields := starship.fields[bucket := Lst([person])];
      }
      i := i + 1;
    }
    assert people[..i] == people;
    return Ok(starship);
  }

  // ----- capture_starship -----

  /** The docking bay is absent, or a dict whose "docked" entry is a list. */
  predicate BayReady(d: Fields)
  {
    Bay !in d || (d[Bay].Obj? && Docked in d[Bay].fields && d[Bay].fields[Docked].Lst?)
  }

  /** The ships docked in the primary docking bay; empty when there is none. */
  function DockedShips(d: Fields): seq<Value>
  {
    if Bay in d && d[Bay].Obj? then Bucket(d[Bay].fields, Docked) else []
  }

  /** The dict `capture_starship(attacker, prey)` leaves behind, and whether it raised. */
  function Capture(d: Fields, prey: Value): (e: Exec)
    ensures e.Raised? <==> !BayReady(d)
    ensures e.Raised? ==> e.state == d
    ensures Bay !in d ==> e == Finished(d[Bay := Obj(map[Docked := Lst([prey])])])
    ensures Bay in d && !d[Bay].Obj? ==> e == Raised(d, TypeError)
    ensures Bay in d && d[Bay].Obj? && Docked !in d[Bay].fields ==> e == Raised(d, KeyError)
    ensures Bay in d && d[Bay].Obj? && Docked in d[Bay].fields && !d[Bay].fields[Docked].Lst? ==> e == Raised(d, AttributeError)
    ensures e.Finished? ==> BayReady(e.state) && Bay in e.state && DockedShips(e.state) == DockedShips(d) + [prey]
    ensures e.Finished? ==> forall k :: k != Bay ==> (k in e.state <==> k in d) && (k in d ==> e.state[k] == d[k])
    ensures e.Finished? && Bay in d ==> forall k :: k != Docked ==>
      (k in e.state[Bay].fields <==> k in d[Bay].fields) && (k in d[Bay].fields ==> e.state[Bay].fields[k] == d[Bay].fields[k])
  {
    if Bay !in d then Finished(d[Bay := Obj(map[Docked := Lst([prey])])])
    else match d[Bay]
      case Obj(bay) =>
        if Docked !in bay then Raised(d, KeyError)
        else if bay[Docked].Lst? then Finished(d[Bay := Obj(bay[Docked := Lst(bay[Docked].items + [prey])])])
        else Raised(d, AttributeError)
      case _ => Raised(d, TypeError)
  }

  /**
   * Successive `capture_starship(attacker, prey)` calls on the same attacker,
   * one per prey in order, stopping at the first one that raises.
   */
  function CaptureAll(d: Fields, preys: seq<Value>): Exec
    decreases |preys|
  {
    if preys == [] then Finished(d)
    else
      match CaptureAll(d, preys[..|preys| - 1])
      case Raised(s, err) => Raised(s, err)
      case Finished(s) => Capture(s, preys[|preys| - 1])
  }

  /**
   * N captures dock N ships, in call order, after those already docked; no
   * key of the attacker other than the docking bay changes.
   */
  lemma {:induction false} CaptureInOrder(d: Fields, preys: seq<Value>)
    requires BayReady(d)
    ensures CaptureAll(d, preys).Finished?
    ensures BayReady(CaptureAll(d, preys).state)
    ensures DockedShips(CaptureAll(d, preys).state) == DockedShips(d) + preys
    ensures preys != [] ==> Bay in CaptureAll(d, preys).state
    ensures forall k :: k != Bay ==>
      (k in CaptureAll(d, preys).state <==> k in d) && (k in d ==> CaptureAll(d, preys).state[k] == d[k])
    decreases |preys|
  {
    if preys != [] {
      var prefix := preys[..|preys| - 1];
      CaptureInOrder(d, prefix);
      assert CaptureAll(d, preys) == Capture(CaptureAll(d, prefix).state, preys[|preys| - 1]);
    }
  }

  /** `capture_starship(attacker, prey)` */
  method CaptureStarship(attacker: Record, prey: Value) returns (r: Result<Record>)
    modifies attacker
    ensures attacker.fields == Capture(old(attacker.fields), prey).state
    ensures Capture(old(attacker.fields), prey).Finished? ==> r == Ok(attacker)
    ensures Capture(old(attacker.fields), prey).Raised? ==> r == Err(Capture(old(attacker.fields), prey).error)
  {
    if Bay !in attacker.fields {
      attacker.fields := attacker.fields[Bay := Obj(map[Docked := Lst([prey])])];
      return Ok(attacker);
    }
    match attacker.fields[Bay] {
      case Obj(bay) =>
        if Docked !in bay {
          return Err(KeyError);
        }
        match bay[Docked] {
          case Lst(ships) =>
            attacker.fields := attacker.fields[Bay := Obj(bay[Docked := Lst(ships + [prey])])];
            return Ok(attacker);
          case _ => return Err(AttributeError);
        }
      case _ => return Err(TypeError);
    }
  }
}
