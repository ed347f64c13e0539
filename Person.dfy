/**
 * Person records: `create_person`, which resolves the homeworld through
 * `get_homeworld`, and `insert_dialogue`, which extends a person's
 * "dialogue" list in place with the lines a name-keyed table holds for that
 * person. The table is a dict; its `items()` are given in iteration order.
 */
module Person {
  import opened Values
  import opened Projection
  import opened Homeworld

  const PersonKeys: set<string> := {"name", "height", "mass", "birth_year", "eye_color", "homeworld", "dialogue"}

  /** The keys `create_person` copies with `.get(key, "")`. */
  const CopiedKeys: set<string> := {"name", "height", "mass", "birth_year", "eye_color"}

  const DialogueKey: string := "dialogue"

  /** `dialogue.items()`: name, lines */
  type Table = seq<(string, seq<Value>)>

  // ----- create_person -----

  /** `create_person(person, url)` with `get_swapi_resource` given as `fetch`. */
  function CreatePerson(person: Fields, url: string, fetch: Request -> Result<Value>): (r: Result<Fields>)
    ensures r.Err? <==> GetHomeworld(Get(person, "homeworld", Null), url, fetch).Err?
    ensures r.Err? ==> r.error == GetHomeworld(Get(person, "homeworld", Null), url, fetch).error
    ensures r.Ok? ==> r.value.Keys == PersonKeys
    ensures r.Ok? ==> r.value[DialogueKey] == Lst([])
    ensures r.Ok? ==> r.value["homeworld"] == Obj(GetHomeworld(Get(person, "homeworld", Null), url, fetch).value)
    ensures r.Ok? ==> forall k :: k in CopiedKeys && k in person ==> r.value[k] == person[k]
    ensures r.Ok? ==> forall k :: k in CopiedKeys && k !in person ==> r.value[k] == Str("")
  {
    match GetHomeworld(Get(person, "homeworld", Null), url, fetch)
    case Err(e) => Err(e)
    case Ok(world) => Ok(Project(person, CopiedKeys)["homeworld" := Obj(world)][DialogueKey := Lst([])])
  }

  /**
   * The homeworld of a created person is a flat record with exactly the five
   * planet fields; resolution never nests further.
   */
  lemma CreatedHomeworldIsThin(person: Fields, url: string, fetch: Request -> Result<Value>)
    requires CreatePerson(person, url, fetch).Ok?
    ensures CreatePerson(person, url, fetch).value["homeworld"].Obj?
    ensures CreatePerson(person, url, fetch).value["homeworld"].fields.Keys == PlanetKeys
  {
  }

  /** A person without a "homeworld" field cannot be created: `"https://" in None` raises. */
  lemma CreatePersonWithoutHomeworld(person: Fields, url: string, fetch: Request -> Result<Value>)
    requires "homeworld" !in person
    ensures CreatePerson(person, url, fetch) == Err(TypeError)
  {
    AbsentHomeworldRaises(url, fetch);
  }

  // ----- insert_dialogue -----

  /** `person.get("name") == name` */
  predicate NameMatches(d: Fields, name: string)
  {
    Get(d, "name", Null) == Str(name)
  }

  /** The lines of every table entry whose key equals `name`, in table order. */
  function MatchedLines(name: Value, table: Table): seq<Value>
    decreases |table|
  {
    if table == [] then []
    else MatchedLines(name, table[..|table| - 1])
         + (if name == Str(table[|table| - 1].0) then table[|table| - 1].1 else [])
  }

  /**
   * The dict `insert_dialogue(d, table)` leaves behind, and whether it raised:
   * KeyError or TypeError are the only exceptions, and no key other than
   * "dialogue" is added, removed or changed.
   */
  function MergeDialogue(d: Fields, table: Table): (e: Exec)
    ensures e.Raised? ==> e.error == KeyError || e.error == TypeError
    ensures e.state.Keys == d.Keys
    ensures forall k :: k in d && k != DialogueKey ==> e.state[k] == d[k]
    decreases |table|
  {
    if table == [] then Finished(d)
    else
      match MergeDialogue(d, table[..|table| - 1])
      case Raised(s, err) => Raised(s, err)
      case Finished(s) =>
        var (name, lines) := table[|table| - 1];
        if !NameMatches(s, name) then Finished(s)
        else if DialogueKey !in s then Raised(s, KeyError)
        else match s[DialogueKey]
          case Lst(existing) => Finished(s[DialogueKey := Lst(existing + lines)])
          case _ => Raised(s, TypeError)
  }

  /** The keys of a dict are distinct. */
  predicate DistinctKeys(table: Table)
  {
    forall i, j :: 0 <= i < j < |table| ==> table[i].0 != table[j].0
  }

  /** Some entry of the table is keyed by the person's name. */
  predicate HasMatch(d: Fields, table: Table)
  {
    exists i :: 0 <= i < |table| && NameMatches(d, table[i].0)
  }

  /**
   * With a "dialogue" list present, the call returns and that list is
   * extended (not replaced) by the matching lines; no other key changes.
   */
  lemma {:induction false} MergeDialogueExtends(d: Fields, table: Table)
    requires DialogueKey in d && d[DialogueKey].Lst?
    ensures MergeDialogue(d, table)
         == Finished(d[DialogueKey := Lst(d[DialogueKey].items + MatchedLines(Get(d, "name", Null), table))])
    decreases |table|
  {
    if table != [] {
      var prefix := table[..|table| - 1];
      MergeDialogueExtends(d, prefix);
      var s := MergeDialogue(d, prefix).state;
      assert Get(s, "name", Null) == Get(d, "name", Null);
      var items := d[DialogueKey].items;
      var name := Get(d, "name", Null);
      var (key, lines) := table[|table| - 1];
      assert items + MatchedLines(name, table)
          == (items + MatchedLines(name, prefix)) + (if NameMatches(d, key) then lines else []);
      if NameMatches(d, key) {
        assert MergeDialogue(d, table) == Finished(s[DialogueKey := Lst(s[DialogueKey].items + lines)]);
      } else {
        assert MatchedLines(name, table) == MatchedLines(name, prefix);
        assert s == d[DialogueKey := Lst(items + MatchedLines(name, table))];
        assert MergeDialogue(d, table) == Finished(s);
      }
    } else {
      assert d[DialogueKey].items + [] == d[DialogueKey].items;
      assert d[DialogueKey := Lst(d[DialogueKey].items)] == d;
    }
  }

  /** No entry keyed by the person's name: no lines are collected. */
  lemma {:induction false} NoMatchNoLines(d: Fields, table: Table)
    requires !HasMatch(d, table)
    ensures MatchedLines(Get(d, "name", Null), table) == []
    decreases |table|
  {
    if table != [] {
      var prefix := table[..|table| - 1];
      assert !HasMatch(d, prefix) by {
        assert forall i :: 0 <= i < |prefix| ==> prefix[i] == table[i];
      }
      NoMatchNoLines(d, prefix);
      assert !NameMatches(d, table[|table| - 1].0);
    }
  }

  /** Since dict keys are distinct, the lines collected are those of the one matching entry. */
  lemma {:induction false} MatchedLinesOfKey(d: Fields, table: Table, j: nat)
    requires DistinctKeys(table) && j < |table| && NameMatches(d, table[j].0)
    ensures MatchedLines(Get(d, "name", Null), table) == table[j].1
    decreases |table|
  {
    var prefix := table[..|table| - 1];
    assert DistinctKeys(prefix) by {
      assert forall i :: 0 <= i < |prefix| ==> prefix[i] == table[i];
    }
    if j == |table| - 1 {
      assert !HasMatch(d, prefix);
      NoMatchNoLines(d, prefix);
    } else {
      MatchedLinesOfKey(d, prefix, j);
      assert table[j].0 != table[|table| - 1].0;
    }
  }

  /** A person no key of the table names is returned unchanged. */
  lemma {:induction false} MergeDialogueNoMatch(d: Fields, table: Table)
    requires !HasMatch(d, table)
    ensures MergeDialogue(d, table) == Finished(d)
    decreases |table|
  {
    if table != [] {
      var prefix := table[..|table| - 1];
      assert !HasMatch(d, prefix) by {
        assert forall i :: 0 <= i < |prefix| ==> prefix[i] == table[i];
      }
      MergeDialogueNoMatch(d, prefix);
      assert !NameMatches(d, table[|table| - 1].0);
    }
  }

  /**
   * Without a "dialogue" list, a matching entry makes the call raise
   * (KeyError when the key is absent, TypeError for `+=` on a non-list) before
   * anything changes; without a matching entry the person is returned as is.
   */
  lemma {:induction false} MergeDialogueRaises(d: Fields, table: Table)
    requires !(DialogueKey in d && d[DialogueKey].Lst?)
    ensures HasMatch(d, table) ==> MergeDialogue(d, table) == Raised(d, if DialogueKey in d then TypeError else KeyError)
    ensures !HasMatch(d, table) ==> MergeDialogue(d, table) == Finished(d)
    decreases |table|
  {
    if table != [] {
      var prefix := table[..|table| - 1];
      assert forall i :: 0 <= i < |prefix| ==> prefix[i] == table[i];
      MergeDialogueRaises(d, prefix);
      if !HasMatch(d, prefix) && HasMatch(d, table) {
        assert NameMatches(d, table[|table| - 1].0);
      }
    }
  }

  /** Inserting the same table twice appends the matching lines twice. */
  lemma MergeDialogueTwice(d: Fields, table: Table)
    requires DialogueKey in d && d[DialogueKey].Lst?
    ensures MergeDialogue(d, table).Finished?
    ensures MergeDialogue(MergeDialogue(d, table).state, table)
         == Finished(d[DialogueKey := Lst(d[DialogueKey].items
                                           + MatchedLines(Get(d, "name", Null), table)
                                           + MatchedLines(Get(d, "name", Null), table))])
  {
    var lines := MatchedLines(Get(d, "name", Null), table);
    var items := d[DialogueKey].items;
    var s := d[DialogueKey := Lst(items + lines)];
    assert MergeDialogue(d, table) == Finished(s) by {
      MergeDialogueExtends(d, table);
    }
    assert MergeDialogue(s, table) == Finished(s[DialogueKey := Lst(items + lines + lines)]) by {
      assert Get(s, "name", Null) == Get(d, "name", Null);
      MergeDialogueExtends(s, table);
    }
    assert s[DialogueKey := Lst(items + lines + lines)] == d[DialogueKey := Lst(items + lines + lines)];
  }

  /** A person whose dialogue list is empty ends up with exactly the lines of its table entry. */
  lemma DialogueFromEmpty(p: Fields, table: Table, j: nat)
    requires DialogueKey in p && p[DialogueKey] == Lst([])
    requires DistinctKeys(table) && j < |table| && NameMatches(p, table[j].0)
    ensures MergeDialogue(p, table) == Finished(p[DialogueKey := Lst(table[j].1)])
  {
    MergeDialogueExtends(p, table);
    MatchedLinesOfKey(p, table, j);
    assert p[DialogueKey].items + table[j].1 == table[j].1;
  }

  /**
   * A person fresh from `create_person` ends up with exactly the lines of the
   * table entry keyed by its name.
   */
  lemma DialogueOfCreatedPerson(person: Fields, url: string, fetch: Request -> Result<Value>, table: Table, j: nat)
    requires CreatePerson(person, url, fetch).Ok?
    requires DistinctKeys(table) && j < |table| && NameMatches(CreatePerson(person, url, fetch).value, table[j].0)
    ensures MergeDialogue(CreatePerson(person, url, fetch).value, table)
         == Finished(CreatePerson(person, url, fetch).value[DialogueKey := Lst(table[j].1)])
  {
    DialogueFromEmpty(CreatePerson(person, url, fetch).value, table, j);
  }

  /** `insert_dialogue(person, dialogue)` */
  method InsertDialogue(person: Record, dialogue: Table) returns (r: Result<Record>)
    modifies person
    ensures person.fields == MergeDialogue(old(person.fields), dialogue).state
    ensures MergeDialogue(old(person.fields), dialogue).Finished? ==> r == Ok(person)
    ensures MergeDialogue(old(person.fields), dialogue).Raised? ==> r == Err(MergeDialogue(old(person.fields), dialogue).error)
  {
    ghost var d0 := person.fields;
    var i := 0;
    while i < |dialogue|
      invariant 0 <= i <= |dialogue|
      invariant MergeDialogue(d0, dialogue[..i]) == Finished(person.fields)
    {
      var (name, lines) := dialogue[i];
      assert dialogue[..i + 1][..i] == dialogue[..i];
      if Get(person.fields, "name", Null) == Str(name) {
        if DialogueKey !in person.fields {
          MergeDialogueRaisedSticks(d0, dialogue, i + 1);
          return Err(KeyError);
        }
        match person.fields[DialogueKey] {
          case Lst(existing) => person.fields := person.fields[DialogueKey := Lst(existing + lines)];
          case _ =>
            MergeDialogueRaisedSticks(d0, dialogue, i + 1);
            return Err(TypeError);
        }
      }
      i := i + 1;
    }
    assert dialogue[..i] == dialogue;
    return Ok(person);
  }

  /** Once the merge has raised, the later entries change nothing. */
  lemma {:induction false} MergeDialogueRaisedSticks(d: Fields, table: Table, j: nat)
    requires j <= |table| && MergeDialogue(d, table[..j]).Raised?
    ensures MergeDialogue(d, table) == MergeDialogue(d, table[..j])
    decreases |table|
  {
    if j < |table| {
      var prefix := table[..|table| - 1];
      assert prefix[..j] == table[..j];
      MergeDialogueRaisedSticks(d, prefix, j);
    } else {
      assert table[..j] == table;
    }
  }
}
