/**
  The city directory behind the `/cities/{city}` route: a fixed table from
  city name to two-letter state code, looked up by the exact key.  The table
  is an ordered sequence of pairs because the error message lists the keys
  in the dictionary's insertion order.
 */
module Cities {
  import opened Wrappers
  import opened PyStr

  type Table = seq<(string, string)>

  /** The directory, in insertion order. */
  const CitiesToState: Table := [("seattle", "WA"), ("portland", "OR")]

  /** What the handler returns: the `{'state': ...}` body, or the
      message of the `BadRequestError` it raises. */
  datatype CityReply = State(body: map<string, string>) | BadRequest(message: string)

  /** A dictionary has each key at most once. */
  predicate DistinctKeys(table: Table)
  {
    forall i, j :: 0 <= i < j < |table| ==> table[i].0 != table[j].0
  }

  predicate HasKey(table: Table, key: string)
  {
    exists i :: 0 <= i < |table| && table[i].0 == key
  }

  /** `table[key]`: the value stored under exactly `key`, if any. */
  function Lookup(table: Table, key: string): (r: Option<string>)
    ensures r.Some? <==> HasKey(table, key)
    ensures r.Some? ==> exists i :: 0 <= i < |table| && table[i] == (key, r.value)
    decreases |table|
  {
    if |table| == 0 then None
    else if table[0].0 == key then Some(table[0].1)
    else
      var r := Lookup(table[1..], key);
      assert HasKey(table, key) ==> HasKey(table[1..], key) by {
        if HasKey(table, key) {
          var i :| 0 <= i < |table| && table[i].0 == key;
          assert table[1..][i - 1].0 == key;
        }
      }
      r
  }

  /** In a dictionary the value found is the one stored with the key. */
  lemma LookupFindsEntry(table: Table, i: int)
    requires DistinctKeys(table) && 0 <= i < |table|
    ensures Lookup(table, table[i].0) == Some(table[i].1)
  {
    var r := Lookup(table, table[i].0);
    var j :| 0 <= j < |table| && table[j] == (table[i].0, r.value);
    assert i == j;
  }

  /** `[c.title() for c in table.keys()]`. */
  function TitledKeys(table: Table): (keys: seq<string>)
    ensures |keys| == |table|
    ensures forall i :: 0 <= i < |table| ==> keys[i] == Title(table[i].0)
  {
    seq(|table|, i requires 0 <= i < |table| => Title(table[i].0))
  }

  const ChoicesSep := ", "
  const UnknownPrefix := "Unknown city '"
  const ChoicesIntro := "', valid choices are : "

  /** The comma-separated list of valid choices.  It holds every key of the
      table, title-cased, exactly once and in insertion order: when no key
      holds a comma, splitting it at `", "` gives them back. */
  function ValidChoices(table: Table): (choices: string)
    ensures |table| >= 1 && (forall i :: 0 <= i < |table| ==> ',' !in table[i].0) ==>
      Split(ChoicesSep, choices) == TitledKeys(table)
  {
    var keys := TitledKeys(table);
    assert |table| >= 1 && (forall i :: 0 <= i < |table| ==> ',' !in table[i].0) ==>
      Split(ChoicesSep, Join(ChoicesSep, keys)) == keys
    by {
      if |table| >= 1 && (forall i :: 0 <= i < |table| ==> ',' !in table[i].0) {
        forall i | 0 <= i < |keys|
          ensures ChoicesSep[0] !in keys[i]
        {
          TitleKeepsUncased(table[i].0, ',');
        }
        SplitJoin(ChoicesSep, keys);
      }
    }
    Join(ChoicesSep, keys)
  }

  /** The `BadRequestError` message for an unknown city. */
  function UnknownCityMessage(table: Table, city: string): (msg: string)
    ensures |msg| >= |UnknownPrefix|
    ensures msg[..|UnknownPrefix|] == UnknownPrefix
  {
    UnknownPrefix + Title(city) + ChoicesIntro + ValidChoices(table)
  }

  /** `state_of_city` over any table. */
  function StateOfCityIn(table: Table, city: string): (r: CityReply)
    ensures r.State? <==> HasKey(table, city)
  {
    match Lookup(table, city)
    case Some(state) => State(map["state" := state])
    case None => BadRequest(UnknownCityMessage(table, city))
  }

  /** `state_of_city(city)` over the fixed directory: only the literal keys
      `seattle` and `portland` are found. */
  function StateOfCity(city: string): (r: CityReply)
    ensures r.State? <==> city == "seattle" || city == "portland"
    ensures city == "seattle" ==> r == State(map["state" := "WA"])
    ensures city == "portland" ==> r == State(map["state" := "OR"])
  {
    assert HasKey(CitiesToState, city) <==> city == "seattle" || city == "portland" by {
      if HasKey(CitiesToState, city) {
        var i :| 0 <= i < |CitiesToState| && CitiesToState[i].0 == city;
      }
      assert CitiesToState[0].0 == "seattle" && CitiesToState[1].0 == "portland";
    }
    StateOfCityIn(CitiesToState, city)
  }

  /** A lookup succeeds exactly when `city` is literally a key, and then
      answers with the state stored under it. */
  lemma StateOfCityFound(table: Table, city: string, state: string)
    requires DistinctKeys(table)
    ensures StateOfCityIn(table, city) == State(map["state" := state])
        <==> (city, state) in table
  {
    if (city, state) in table {
      var i :| 0 <= i < |table| && table[i] == (city, state);
      LookupFindsEntry(table, i);
    }
    if StateOfCityIn(table, city) == State(map["state" := state]) {
      assert map["state" := state]["state"] == state;
    }
  }

  /** An unknown city is answered with the message naming the title-cased
      input and then the valid choices. */
  lemma UnknownCityRejected(table: Table, city: string)
    requires !HasKey(table, city)
    ensures StateOfCityIn(table, city) ==
      BadRequest(UnknownPrefix + Title(city) + ChoicesIntro + ValidChoices(table))
  {
  }

  /** The message ends with the choices list, so that list can be read back
      from the message. */
  lemma UnknownCityMessageEndsWithChoices(table: Table, city: string)
    ensures var msg := UnknownCityMessage(table, city);
      |msg| >= |ValidChoices(table)| &&
      msg[|msg| - |ValidChoices(table)|..] == ValidChoices(table)
  {
  }

  lemma DirectoryIsDictionary()
    ensures DistinctKeys(CitiesToState)
  {
  }

  lemma SeattleIsWashington()
    ensures StateOfCity("seattle") == State(map["state" := "WA"])
  {
  }

  lemma PortlandIsOregon()
    ensures StateOfCity("portland") == State(map["state" := "OR"])
  {
  }

  lemma TitleSeattle()
    ensures Title("seattle") == "Seattle"
  {
    TitleOfWord("seattle");
    assert ToUpper('s') == 'S';
  }

  lemma TitlePortland()
    ensures Title("portland") == "Portland"
  {
    TitleOfWord("portland");
    assert ToUpper('p') == 'P';
  }

  lemma TitleChicago()
    ensures Title("chicago") == "Chicago"
  {
    TitleOfWord("chicago");
    assert ToUpper('c') == 'C';
  }

  lemma TitleCapitalisedSeattle()
    ensures Title("Seattle") == "Seattle"
  {
    TitleOfWord("Seattle");
  }

  lemma DirectoryTitledKeys()
    ensures TitledKeys(CitiesToState) == ["Seattle", "Portland"]
  {
    TitleSeattle();
    TitlePortland();
  }

  /** The valid choices of the fixed directory, in insertion order. */
  lemma DirectoryChoices()
    ensures ValidChoices(CitiesToState) == "Seattle, Portland"
  {
    DirectoryTitledKeys();
    JoinPair(ChoicesSep, "Seattle", "Portland");
  }

  /** The lookup does not normalise case: "Seattle" is refused, and the
      message then names the city among the valid choices. */
  lemma CapitalisedCityRejected()
    ensures StateOfCity("Seattle") ==
      BadRequest("Unknown city '" + "Seattle" + "', valid choices are : " + "Seattle, Portland")
  {
    DirectoryChoices();
    assert !HasKey(CitiesToState, "Seattle") by {
      assert CitiesToState[0].0[0] != 'S' && CitiesToState[1].0[0] != 'S';
    }
    TitleCapitalisedSeattle();
    UnknownCityRejected(CitiesToState, "Seattle");
  }

  lemma UnknownCityChicago()
    ensures StateOfCity("chicago") ==
      BadRequest("Unknown city '" + "Chicago" + "', valid choices are : " + "Seattle, Portland")
  {
    DirectoryChoices();
    assert !HasKey(CitiesToState, "chicago") by {
      assert CitiesToState[0].0[0] != 'c' && CitiesToState[1].0[0] != 'c';
    }
    TitleChicago();
    UnknownCityRejected(CitiesToState, "chicago");
  }
}
