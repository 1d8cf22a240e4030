/**
 * The result of an activity: a status plus the messages recorded so far, in
 * insertion order. Messages are only ever appended, inserted at a position,
 * or all cleared; reporting selects their texts by category without
 * reordering them.
 */
module Results {
  import opened ActivityStatuses
  import opened MessageCategories
  import opened ResultMessages

  /** The observable state of an `ActivityResult`. */
  datatype ResultValue = ResultValue(status: ActivityStatus, messages: seq<ResultMessage>)

  /** What a positional insert did: Java throws IndexOutOfBoundsException outside 0..size. */
  datatype InsertOutcome = Inserted | IndexOutOfBounds(index: int, size: int)

  /** The three ways reporting selects messages. */
  datatype Selection = All | OfCategory(category: Category) | MinCategory(min: Category)
  {
    predicate Keeps(m: ResultMessage)
    {
      match this
      case All => true
      case OfCategory(c) => m.category == c
      case MinCategory(min) => m.category.AtLeast(min)
    }
  }

  /** The texts of the selected messages, in insertion order. */
  function Select(ms: seq<ResultMessage>, sel: Selection): (texts: seq<string>)
    ensures |texts| <= |ms|
  {
    if ms == [] then []
    else Select(ms[..|ms| - 1], sel) + (if sel.Keeps(ms[|ms| - 1]) then [ms[|ms| - 1].text] else [])
  }

  /** The positions of the selected messages, in increasing order. */
  function KeptPositions(ms: seq<ResultMessage>, sel: Selection): seq<nat>
  {
    if ms == [] then []
    else KeptPositions(ms[..|ms| - 1], sel) + (if sel.Keeps(ms[|ms| - 1]) then [|ms| - 1] else [])
  }

  /**
   * Selecting gives, in order, the text of exactly the messages the selection
   * keeps: the j-th text comes from the j-th kept position, positions increase,
   * and a position is listed iff its message is kept.
   */
  lemma {:induction false} SelectIsOrderedFilter(ms: seq<ResultMessage>, sel: Selection)
    ensures |Select(ms, sel)| == |KeptPositions(ms, sel)|
    ensures forall j :: 0 <= j < |KeptPositions(ms, sel)| ==>
      KeptPositions(ms, sel)[j] < |ms| && Select(ms, sel)[j] == ms[KeptPositions(ms, sel)[j]].text
    ensures forall j, k :: 0 <= j < k < |KeptPositions(ms, sel)| ==> KeptPositions(ms, sel)[j] < KeptPositions(ms, sel)[k]
    ensures forall i :: 0 <= i < |ms| ==> (sel.Keeps(ms[i]) <==> i in KeptPositions(ms, sel))
  {
    SelectFollowsPositions(ms, sel);
    KeptPositionsIncrease(ms, sel);
    KeptPositionsExact(ms, sel);
  }

  /** Every kept position is a position of the list. */
  lemma {:induction false} KeptPositionsBounded(ms: seq<ResultMessage>, sel: Selection)
    ensures forall j :: 0 <= j < |KeptPositions(ms, sel)| ==> KeptPositions(ms, sel)[j] < |ms|
  {
    if ms != [] {
      KeptPositionsBounded(ms[..|ms| - 1], sel);
    }
  }

  /** Kept positions are listed in increasing order. */
  lemma {:induction false} KeptPositionsIncrease(ms: seq<ResultMessage>, sel: Selection)
    ensures forall j, k :: 0 <= j < k < |KeptPositions(ms, sel)| ==> KeptPositions(ms, sel)[j] < KeptPositions(ms, sel)[k]
  {
    if ms != [] {
      var init := ms[..|ms| - 1];
      KeptPositionsIncrease(init, sel);
      KeptPositionsBounded(init, sel);
    }
  }

  /** A position is listed exactly when its message is kept. */
  lemma {:induction false} KeptPositionsExact(ms: seq<ResultMessage>, sel: Selection)
    ensures forall i :: 0 <= i < |ms| ==> (sel.Keeps(ms[i]) <==> i in KeptPositions(ms, sel))
  {
    if ms != [] {
      var init := ms[..|ms| - 1];
      KeptPositionsExact(init, sel);
      KeptPositionsBounded(init, sel);
      assert forall i :: 0 <= i < |init| ==> init[i] == ms[i];
    }
  }

  /** The j-th selected text is the text at the j-th kept position. */
  lemma {:induction false} SelectFollowsPositions(ms: seq<ResultMessage>, sel: Selection)
    ensures |Select(ms, sel)| == |KeptPositions(ms, sel)|
    ensures forall j :: 0 <= j < |KeptPositions(ms, sel)| ==>
      KeptPositions(ms, sel)[j] < |ms| && Select(ms, sel)[j] == ms[KeptPositions(ms, sel)[j]].text
  {
    KeptPositionsBounded(ms, sel);
    if ms != [] {
      var init := ms[..|ms| - 1];
      SelectFollowsPositions(init, sel);
      assert forall i :: 0 <= i < |init| ==> init[i] == ms[i];
    }
  }

  /** Selecting everything lists every text in insertion order. */
  lemma {:induction false} SelectAllIsEveryText(ms: seq<ResultMessage>)
    ensures |Select(ms, All)| == |ms|
    ensures forall i :: 0 <= i < |ms| ==> Select(ms, All)[i] == ms[i].text
  {
    if ms != [] {
      SelectAllIsEveryText(ms[..|ms| - 1]);
    }
  }

  /** "At least DEFAULT" keeps every message, so it lists the same texts as selecting all. */
  lemma {:induction false} MinDefaultSelectsAll(ms: seq<ResultMessage>)
    ensures Select(ms, MinCategory(Default)) == Select(ms, All)
  {
    if ms != [] {
      MinDefaultSelectsAll(ms[..|ms| - 1]);
    }
  }

  /** Selection distributes over concatenation of message lists. */
  lemma {:induction false} SelectAppend(a: seq<ResultMessage>, b: seq<ResultMessage>, sel: Selection)
    ensures Select(a + b, sel) == Select(a, sel) + Select(b, sel)
  {
    if b == [] {
      assert a + b == a;
    } else {
      var b' := b[..|b| - 1];
      assert (a + b)[..|a + b| - 1] == a + b';
      SelectAppend(a, b', sel);
    }
  }

  /** A single message contributes its text exactly when it is selected. */
  lemma SelectSingle(m: ResultMessage, sel: Selection)
    ensures Select([m], sel) == if sel.Keeps(m) then [m.text] else []
  {
  }

  /**
   * Inserting a message at a position puts its text, when selected, between
   * the texts selected before that position and those selected after it.
   */
  lemma InsertThenSelect(ms: seq<ResultMessage>, i: nat, m: ResultMessage, sel: Selection)
    requires i <= |ms|
    ensures Select(ms[..i] + [m] + ms[i..], sel)
         == Select(ms[..i], sel) + (if sel.Keeps(m) then [m.text] else []) + Select(ms[i..], sel)
    ensures Select(ms[..i], sel) + Select(ms[i..], sel) == Select(ms, sel)
  {
    var pre, post := ms[..i], ms[i..];
    SelectAround(pre, m, post, sel);
    SelectAppend(pre, post, sel);
    assert pre + post == ms;
  }

  /** The texts selected from `pre + [m] + post`, part by part. */
  lemma SelectAround(pre: seq<ResultMessage>, m: ResultMessage, post: seq<ResultMessage>, sel: Selection)
    ensures Select(pre + [m] + post, sel)
         == Select(pre, sel) + (if sel.Keeps(m) then [m.text] else []) + Select(post, sel)
  {
    SelectAppend(pre + [m], post, sel);
    SelectAppend(pre, [m], sel);
    SelectSingle(m, sel);
  }

  /** Texts that all get the same category. */
  function Tagged(category: Category, texts: seq<string>): (ms: seq<ResultMessage>)
    ensures |ms| == |texts|
    ensures forall i :: 0 <= i < |texts| ==> ms[i] == ResultMessage(category, texts[i])
  {
    seq(|texts|, i requires 0 <= i < |texts| => ResultMessage(category, texts[i]))
  }

  /** A batch added under one category is listed back, in order, by selecting that category. */
  lemma {:induction false} TaggedSelectsBack(category: Category, texts: seq<string>)
    ensures Select(Tagged(category, texts), OfCategory(category)) == texts
  {
    if texts != [] {
      var init := texts[..|texts| - 1];
      TaggedSelectsBack(category, init);
      assert Tagged(category, texts)[..|texts| - 1] == Tagged(category, init);
    }
  }

  /** The current contents of a list of message holders. */
  function Contents(holders: seq<ActivityResultMessage>): (ms: seq<ResultMessage>)
    reads holders
    ensures |ms| == |holders|
    ensures forall i :: 0 <= i < |holders| ==> ms[i] == holders[i].State()
  {
    if holders == [] then [] else [holders[0].State()] + Contents(holders[1..])
  }

  class ActivityResult {
    var status: ActivityStatus
    var messages: seq<ResultMessage>
    /** The activity that created this result, if any. */
    ghost var owner: object?

    function State(): ResultValue
      reads this
    {
      ResultValue(status, messages)
    }

    /** A fresh result has status NOT_RUN and no messages. */
    constructor ()
      ensures State() == ResultValue(NotRun, []) && owner == null
    {
      status := NotRun;
      messages := [];
      owner := null;
    }

    /** Replaces the status unconditionally, whatever its rank; messages are kept. */
    method SetStatus(status: ActivityStatus)
      modifies this`status
      ensures State() == old(State()).(status := status)
    {
      this.status := status;
    }

    /** `getMessages()`: every text, in insertion order. */
    method GetMessages() returns (texts: seq<string>)
      ensures texts == Select(messages, All)
      ensures |texts| == |messages|
      ensures forall i :: 0 <= i < |messages| ==> texts[i] == messages[i].text
    {
      texts := [];
      var i := 0;
      while i < |messages|
        invariant 0 <= i <= |messages|
        invariant texts == Select(messages[..i], All)
      {
        assert messages[..i + 1][..i] == messages[..i];
        texts := texts + [messages[i].text];
        i := i + 1;
      }
      assert messages[..i] == messages;
      SelectAllIsEveryText(messages);
    }

    /** `getMessages(category)`: the texts of exactly the messages of that category, in order. */
    method GetMessagesOf(category: Category) returns (texts: seq<string>)
      ensures texts == Select(messages, OfCategory(category))
    {
      texts := [];
      var i := 0;
      while i < |messages|
        invariant 0 <= i <= |messages|
        invariant texts == Select(messages[..i], OfCategory(category))
      {
        assert messages[..i + 1][..i] == messages[..i];
        if messages[i].category == category {
          texts := texts + [messages[i].text];
        }
        i := i + 1;
      }
      assert messages[..i] == messages;
    }

    /** `getMessagesMinCategory(min)`: the texts of the messages ranked at least `min`, in order. */
    method GetMessagesMinCategory(min: Category) returns (texts: seq<string>)
      ensures texts == Select(messages, MinCategory(min))
    {
      texts := [];
      var i := 0;
      while i < |messages|
        invariant 0 <= i <= |messages|
        invariant texts == Select(messages[..i], MinCategory(min))
      {
        assert messages[..i + 1][..i] == messages[..i];
        if messages[i].category.Rank() >= min.Rank() {
          texts := texts + [messages[i].text];
        }
        i := i + 1;
      }
      assert messages[..i] == messages;
    }

    /** Appends a DEFAULT message; earlier messages and the status are unchanged. */
    method AddMessage(msg: string)
      modifies this`messages
      ensures State() == old(State()).(messages := old(messages) + [ResultMessage(Default, msg)])
    {
      messages := messages + [ResultMessage(Default, msg)];
    }

    /** Appends a message of the given category. */
    method AddMessageOf(category: Category, msg: string)
      modifies this`messages
      ensures State() == old(State()).(messages := old(messages) + [ResultMessage(category, msg)])
    {
      messages := messages + [ResultMessage(category, msg)];
    }

    /** Inserts a DEFAULT message at `atIndex`, shifting later messages right; fails outside 0..size. */
    method AddMessageAt(msg: string, atIndex: int) returns (outcome: InsertOutcome)
      modifies this`messages
      ensures outcome == if 0 <= atIndex <= |old(messages)| then Inserted else IndexOutOfBounds(atIndex, |old(messages)|)
      ensures outcome.Inserted? ==>
        State() == old(State()).(messages := old(messages)[..atIndex] + [ResultMessage(Default, msg)] + old(messages)[atIndex..])
      ensures outcome.IndexOutOfBounds? ==> State() == old(State())
    {
      outcome := AddMessageOfAt(Default, msg, atIndex);
    }

    /** Inserts a message of the given category at `atIndex`; fails outside 0..size. */
    method AddMessageOfAt(category: Category, msg: string, atIndex: int) returns (outcome: InsertOutcome)
      modifies this`messages
      ensures outcome == if 0 <= atIndex <= |old(messages)| then Inserted else IndexOutOfBounds(atIndex, |old(messages)|)
      ensures outcome.Inserted? ==>
        State() == old(State()).(messages := old(messages)[..atIndex] + [ResultMessage(category, msg)] + old(messages)[atIndex..])
      ensures outcome.IndexOutOfBounds? ==> State() == old(State())
    {
      if 0 <= atIndex <= |messages| {
        messages := messages[..atIndex] + [ResultMessage(category, msg)] + messages[atIndex..];
        outcome := Inserted;
      } else {
        outcome := IndexOutOfBounds(atIndex, |messages|);
      }
    }

    /** Appends each text as a DEFAULT message, in list order. */
    method AddMessages(msgs: seq<string>)
      modifies this`messages
      ensures State() == old(State()).(messages := old(messages) + Tagged(Default, msgs))
    {
      AddMessagesOf(Default, msgs);
    }

    /** Appends each text with the same category, in list order. */
    method AddMessagesOf(category: Category, msgs: seq<string>)
      modifies this`messages
      ensures State() == old(State()).(messages := old(messages) + Tagged(category, msgs))
    {
      var i := 0;
      while i < |msgs|
        invariant 0 <= i <= |msgs|
        invariant messages == old(messages) + Tagged(category, msgs[..i])
      {
        AddMessageOf(category, msgs[i]);
        assert Tagged(category, msgs[..i + 1]) == Tagged(category, msgs[..i]) + [ResultMessage(category, msgs[i])];
        i := i + 1;
      }
      assert msgs[..i] == msgs;
    }

    /** Appends the current contents of the given messages, in list order. */
    method AddCategorizedMessages(msgs: seq<ActivityResultMessage>)
      modifies this`messages
      ensures State() == old(State()).(messages := old(messages) + old(Contents(msgs)))
    {
      messages := messages + Contents(msgs);
    }

    /** Removes every message; the status is kept. */
    method ClearMessages()
      modifies this`messages
      ensures State() == old(State()).(messages := [])
    {
      messages := [];
    }
  }
}
