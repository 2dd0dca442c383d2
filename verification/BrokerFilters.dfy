/** What registration makes of a client's filter, and with it every call of forward_message, told by the
    levels of the filter string and the wildcard rules. */
module BrokerFilters {
  import opened Tokenizer
  import opened Topics
  import opened Broker
  import opened BrokerRuns

  /** The row enables exactly the topics that the standard's matcher accepts for this filter, below the
      node `pub`. */
  ghost predicate Enables(row: seq<int>, filter: string, pub: string) {
    && |row| == TOPICS_NUMBER
    && forall j: nat :: j < TOPICS_NUMBER ==>
         (row[j] != -1 <==> Matches(Parts(filter, '/'), [pub] + TopicLevels(j)))
  }

  /** The row enables what the standard's matcher accepts for the filter the branch tree takes this one
      for, and carries the client's own entries there. */
  ghost predicate EnablesTakenFor(row: seq<int>, filter: string, info: seq<int>) {
    && |row| == |info| == TOPICS_NUMBER && IsSubscription(NonEmpty(Parts(filter, '/')))
    && forall j: nat :: j < TOPICS_NUMBER ==>
         if Matches(TakenFor(NonEmpty(Parts(filter, '/'))), TopicLevels(j)) then row[j] == info[j] else row[j] == -1
  }

  /** What is stored for a client that subscribes: its publisher is the first level of its filter that
      is not empty, and its row meets the filter exactly when the filter is a supported one. */
  ghost predicate MeetsFilter(c: Conn, pub: string, row: seq<int>) {
    var levels := Parts(c.filter, '/');
    && NonEmpty(levels) != [] && pub == NonEmpty(levels)[0]
    && ("" !in levels ==> pub == levels[0])
    && EnablesTakenFor(row, c.filter, c.info)
    && (Enables(row, c.filter, pub) <==> "" !in levels && Supported(levels[1..]))
  }

  lemma FilterOf(c: Conn)
    requires IsConn(c)
    ensures c.filter == "NONE" ==> SusOf(c) == "NONE" && RowOf(c) == [0, 0, 0, 0, 0, 0]
    ensures c.filter != "NONE" ==> MeetsFilter(c, SusOf(c), RowOf(c))
  {
    if c.filter != NONE {
      var tokens, levels := Tokens(c.filter, '/'), Parts(c.filter, '/');
      hide Tokens, Parts, Supported, Matches, Kept, IsSubscription, TakenFor, TopicLevels;
      TokensAreParts(c.filter, '/');
      NonEmptyAll(levels);
      AgreesExactly(c.filter, c.info);
      forall j: nat | j < TOPICS_NUMBER
        ensures if Matches(TakenFor(tokens), TopicLevels(j)) then RowOf(c)[j] == c.info[j] else RowOf(c)[j] == -1
      {
        KeepsWhatItIsTakenFor(tokens, j);
      }
      assert forall j: nat :: j < TOPICS_NUMBER ==>
               (Accepts(c.filter, j) <==> Matches(levels, [SusOf(c)] + TopicLevels(j)));
      assert |tokens| >= 2 by { SubscriptionLength(tokens); }
    }
  }

  lemma SubscriptionLength(tokens: seq<string>)
    requires IsSubscription(tokens)
    ensures |tokens| >= 2
  {
  }

  /** Every registered client, in every reachable state: what its slot holds of its filter. */
  lemma RegisteredFilters(acts: seq<Action>, i: nat)
    requires IsRun(INIT, acts) && i < |After(INIT, acts).log|
    ensures
      var s := After(INIT, acts);
      && i < |s.slots| && s.slots[i].sus.Some?
      && (s.log[i].filter == "NONE" ==> s.slots[i].sus.value == "NONE" && s.slots[i].topics == [0, 0, 0, 0, 0, 0])
      && (s.log[i].filter != "NONE" ==> MeetsFilter(s.log[i], s.slots[i].sus.value, s.slots[i].topics))
  {
    hide MeetsFilter, SusOf, RowOf, IsConn, IsRun, After;
    SafeTables(acts);
    FilterOf(After(INIT, acts).log[i]);
  }

  /** Every call of forward_message once the client of its slot is registered: it reads from the node
      that the client's filter names, and a settled call sends exactly the topics that the wildcard
      rules accept for the filter, if and only if the filter is a supported one. */
  lemma CallsMeetFilters(acts: seq<Action>, c: Call)
    requires IsRun(INIT, acts) && c in After(INIT, acts).calls && c.want.slot < |After(INIT, acts).log|
    ensures
      var client := After(INIT, acts).log[c.want.slot];
      var levels := Parts(client.filter, '/');
      && client.filter != "NONE"
      && NonEmpty(levels) != [] && c.want.pub == NonEmpty(levels)[0]
      && ("" !in levels ==> c.want.pub == levels[0])
      && (c.want.settled ==> MeetsFilter(client, c.want.pub, c.want.row))
  {
    hide SusOf, RowOf, IsConn, IsRun, After, Enables, EnablesTakenFor;
    CallsAreRight(acts, c);
    FilterOf(After(INIT, acts).log[c.want.slot]);
  }
}
