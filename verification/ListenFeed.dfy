/**
 The resource URIs a client listens to (`src/utils/listen-feed.ts`), counted over
 its open streams, and the alert poller's sink that follows them (`src/server.ts`).
 */
module ListenFeed {

  /** What a sink is told. */
  datatype Change = Add(uri: string) | Remove(uri: string)

  // ----- What a sink makes of its history ---------------------------------------------------

  /** The URIs a sink takes for listened to after this history. */
  ghost function Heard(history: seq<Change>): set<string> {
    if history == [] then {}
    else
      var before := Heard(history[..|history| - 1]);
      match history[|history| - 1]
      case Add(uri) => before + {uri}
      case Remove(uri) => before - {uri}
  }

  /** Each URI is added, removed, added again: never twice the same in a row. */
  ghost predicate Alternates(history: seq<Change>) {
    history == [] ||
    var before, last := history[..|history| - 1], history[|history| - 1];
    Alternates(before) && (last.Add? <==> last.uri !in Heard(before))
  }

  ghost predicate Follows(history: seq<Change>, uris: set<string>) {
    Alternates(history) && Heard(history) == uris
  }

  ghost function After(uris: set<string>, change: Change): set<string> {
    if change.Add? then uris + {change.uri} else uris - {change.uri}
  }

  lemma {:induction false} Told(history: seq<Change>, uris: set<string>, change: Change)
    requires Follows(history, uris) && (change.Add? <==> change.uri !in uris)
    ensures Follows(history + [change], After(uris, change))
  {
    assert (history + [change])[..|history|] == history;
  }

  // ----- Counting ------------------------------------------------------------------------------

  type Streams = map<nat, seq<string>>

  /** The open streams naming this URI. */
  ghost function Naming(streams: Streams, uri: string): set<nat> {
    set key | key in streams && uri in streams[key]
  }

  /** The counts are the numbers of streams, and a URI nobody names has none. */
  ghost predicate Counts(listeners: map<string, nat>, streams: Streams) {
    && (forall uri :: uri in listeners ==> listeners[uri] == |Naming(streams, uri)| > 0)
    && (forall uri :: Naming(streams, uri) != {} ==> uri in listeners)
  }

  predicate Distinct(uris: seq<string>) {
    forall i, j :: 0 <= i < j < |uris| ==> uris[i] != uris[j]
  }

  /** `[...new Set(uris)]`: each URI once, where it first stands. */
  function Unique(uris: seq<string>): (unique: seq<string>)
    ensures Distinct(unique)
    ensures forall uri :: uri in unique <==> uri in uris
  {
    if uris == [] then []
    else
      var last := uris[|uris| - 1];
      var before := Unique(uris[..|uris| - 1]);
      assert uris == uris[..|uris| - 1] + [last];
      if last in before then before else before + [last]
  }

  /** Naming one more URI under a key adds that key to the URI's streams, and touches no other URI. */
  lemma {:induction false} NamingGrows(streams: Streams, key: nat, uris: seq<string>, uri: string)
    requires uri !in uris
    ensures var before, after := streams[key := uris], streams[key := uris + [uri]];
            && key !in Naming(before, uri)
            && Naming(after, uri) == Naming(before, uri) + {key}
            && forall other :: other != uri ==> Naming(after, other) == Naming(before, other)
  {
    var before, after := streams[key := uris], streams[key := uris + [uri]];
    assert forall k :: k in streams && k != key ==> before[k] == after[k] == streams[k];
  }

  /** Dropping the first URI under a key takes that key out of the URI's streams, and touches no other URI. */
  lemma {:induction false} NamingShrinks(streams: Streams, key: nat, uris: seq<string>)
    requires uris != [] && Distinct(uris)
    ensures var before, after := streams[key := uris], streams[key := uris[1..]];
            && key in Naming(before, uris[0])
            && Naming(after, uris[0]) == Naming(before, uris[0]) - {key}
            && forall other :: other != uris[0] ==> Naming(after, other) == Naming(before, other)
  {
    var before, after := streams[key := uris], streams[key := uris[1..]];
    assert uris == [uris[0]] + uris[1..];
    assert uris[0] !in uris[1..];
    assert forall k :: k in streams && k != key ==> before[k] == after[k] == streams[k];
  }

  lemma {:induction false} CountUp(listeners: map<string, nat>, streams: Streams, key: nat, uris: seq<string>, uri: string)
    requires uri !in uris && Counts(listeners, streams[key := uris])
    ensures var count := (if uri in listeners then listeners[uri] else 0) + 1;
            Counts(listeners[uri := count], streams[key := uris + [uri]])
  {
    hide Naming;
    NamingGrows(streams, key, uris, uri);
  }

  lemma {:induction false} CountDown(listeners: map<string, nat>, streams: Streams, key: nat, uris: seq<string>)
    requires uris != [] && Distinct(uris) && Counts(listeners, streams[key := uris])
    ensures uris[0] in listeners
    ensures var count := listeners[uris[0]] - 1;
            Counts(if count > 0 then listeners[uris[0] := count] else listeners - {uris[0]}, streams[key := uris[1..]])
  {
    hide Naming;
    NamingShrinks(streams, key, uris);
    var uri := uris[0];
    var names := Naming(streams[key := uris], uri);
    assert names == (names - {key}) + {key};
  }

  /** A stream naming nothing counts for nothing. */
  lemma {:induction false} EmptyStream(listeners: map<string, nat>, streams: Streams, key: nat)
    requires key !in streams
    ensures Counts(listeners, streams[key := []]) <==> Counts(listeners, streams)
  {
    forall uri ensures Naming(streams[key := []], uri) == Naming(streams, uri) {}
  }

  /** With no stream left there is no count left. */
  lemma {:induction false} NoStreams(listeners: map<string, nat>)
    requires Counts(listeners, map[])
    ensures listeners == map[]
  {
    forall uri ensures uri !in listeners { assert Naming(map[], uri) == {}; }
  }

  // ----- The feed -------------------------------------------------------------------------------

  /** `told` is what each sink has been told since it was last attached. */
  class ListenFeed {
    var streams: Streams
    var listeners: map<string, nat>
    var sinks: set<nat>
    var told: map<nat, seq<Change>>

    ghost predicate Valid()
      reads this
    {
      && (forall key :: key in streams ==> Distinct(streams[key]))
      && Counts(listeners, streams)
      && SinksFollow(listeners.Keys)
    }

    ghost predicate SinksFollow(uris: set<string>)
      reads this
    {
      forall s :: s in sinks ==> s in told && Follows(told[s], uris)
    }

    constructor ()
      ensures Valid() && streams == map[] && listeners == map[] && sinks == {}
    {
      streams, listeners, sinks, told := map[], map[], {}, map[];
    }

    /** Tells every attached sink, whose failures it swallows; they go on following. */
    method Tell(change: Change, ghost uris: set<string>, ghost start: map<nat, seq<Change>>)
      requires SinksFollow(uris) && (change.Add? <==> change.uri !in uris)
      requires Only(start, told, change.Add?)
      modifies this`told
      ensures told.Keys == old(told.Keys)
      ensures SinksFollow(After(uris, change)) && Only(start, told, change.Add?)
    {
      hide Follows, Only, After;
      var todo := sinks;
      while todo != {}
        invariant todo <= sinks && told.Keys == old(told.Keys)
        invariant forall s :: s in told ==> told[s] == old(told[s]) + if s in sinks - todo then [change] else []
      {
        var s :| s in todo;
        told := told[s := told[s] + [change]];
        todo := todo - {s};
      }
      forall s | s in sinks ensures Follows(told[s], After(uris, change)) { Told(old(told[s]), uris, change); }
      assert forall s :: s in told ==> told[s] == old(told[s]) + [change] || told[s] == old(told[s]);
      OnlyOneMore(start, old(told), told, change);
    }

    /** A stream opens; each sink hears of exactly the URIs that had no listener, each once. */
    method Open(key: nat, uris: seq<string>)
      requires Valid()
      modifies this
      ensures Valid() && sinks == old(sinks) && told.Keys == old(told.Keys)
      ensures streams == if key in old(streams) then old(streams) else old(streams)[key := Unique(uris)]
      ensures Only(old(told), told, true)
    {
      hide Follows, Only, Naming;
      OnlyNothing(told, true);
      if key in streams { return; }
      var unique := Unique(uris);
      ghost var before := streams;
      EmptyStream(listeners, streams, key);
      streams := streams[key := unique];
      var i := 0;
      while i < |unique|
        invariant i <= |unique| && streams == before[key := unique]
        invariant sinks == old(sinks) && told.Keys == old(told.Keys)
        invariant Counts(listeners, before[key := unique[..i]])
        invariant SinksFollow(listeners.Keys)
        invariant Only(old(told), told, true)
      {
        var uri := unique[i];
        CountUp(listeners, before, key, unique[..i], uri);
        assert unique[..i + 1] == unique[..i] + [uri];
        var count := (if uri in listeners then listeners[uri] else 0) + 1;
        ghost var keys := listeners.Keys;
        listeners := listeners[uri := count];
        if count == 1 { Tell(Add(uri), keys, old(told)); }
        assert listeners.Keys == if count == 1 then After(keys, Add(uri)) else keys;
        i := i + 1;
      }
      assert unique[..i] == unique;
    }

    /** A stream ends; each sink hears of exactly the URIs that lose their last listener, each once. */
    method Close(key: nat)
      requires Valid()
      modifies this
      ensures Valid() && sinks == old(sinks) && told.Keys == old(told.Keys)
      ensures streams == old(streams) - {key}
      ensures Only(old(told), told, false)
    {
      hide Follows, Only, Naming;
      OnlyNothing(told, false);
      if key !in streams { return; }
      var uris := streams[key];
      ghost var before := streams - {key};
      assert before[key := uris] == streams;
      streams := streams - {key};
      var i := 0;
      while i < |uris|
        invariant i <= |uris| && streams == before && key !in before
        invariant sinks == old(sinks) && told.Keys == old(told.Keys)
        invariant Distinct(uris[i..]) && Counts(listeners, before[key := uris[i..]])
        invariant SinksFollow(listeners.Keys)
        invariant Only(old(told), told, false)
      {
        var uri := uris[i];
        CountDown(listeners, before, key, uris[i..]);
        assert uris[i..][1..] == uris[i + 1..];
        var count := listeners[uri] - 1;
        ghost var keys := listeners.Keys;
        if count > 0 {
          listeners := listeners[uri := count];
          assert listeners.Keys == keys;
        } else {
          listeners := listeners - {uri};
          Tell(Remove(uri), keys, old(told));
          assert listeners.Keys == After(keys, Remove(uri));
        }
        i := i + 1;
      }
      assert uris[i..] == [];
      EmptyStream(listeners, before, key);
    }

    /** Every stream ends: nothing is listened to, and no count stays behind. */
    method CloseAll()
      requires Valid()
      modifies this
      ensures Valid() && streams == map[] && listeners == map[] && sinks == old(sinks)
      ensures told.Keys == old(told.Keys) && Only(old(told), told, false)
    {
      hide Only, SinksFollow, Counts;
      OnlyNothing(told, false);
      var keys := streams.Keys;
      while keys != {}
        invariant Valid() && keys == streams.Keys && sinks == old(sinks)
        invariant told.Keys == old(told.Keys) && Only(old(told), told, false)
      {
        var key :| key in keys;
        ghost var heard := told;
        Close(key);
        OnlyTransitive(old(told), heard, told, false);
        keys := keys - {key};
      }
      assert streams == map[];
      NoStreams(listeners);
    }

    /** A sink is told what is listened to now; its history starts over. */
    method Attach(sink: nat)
      requires Valid()
      modifies this
      ensures Valid() && sinks == old(sinks) + {sink}
      ensures streams == old(streams) && listeners == old(listeners)
      ensures told.Keys == old(told.Keys) + {sink}
      ensures forall s :: s in old(told) && s != sink ==> told[s] == old(told[s])
      ensures forall c :: c in told[sink] ==> c.Add?
    {
      hide Follows, Counts, Distinct;
      sinks := sinks + {sink};
      told := told[sink := []];
      HeardNothing();
      assert listeners.Keys - listeners.Keys == {};
      var uris := listeners.Keys;
      while uris != {}
        invariant sinks == old(sinks) + {sink} && streams == old(streams) && listeners == old(listeners)
        invariant uris <= listeners.Keys
        invariant told.Keys == old(told.Keys) + {sink}
        invariant forall s :: s in old(told) && s != sink ==> told[s] == old(told[s])
        invariant Follows(told[sink], listeners.Keys - uris)
        invariant forall c :: c in told[sink] ==> c.Add?
      {
        var uri :| uri in uris;
        Told(told[sink], listeners.Keys - uris, Add(uri));
        assert listeners.Keys - (uris - {uri}) == (listeners.Keys - uris) + {uri};
        told := told[sink := told[sink] + [Add(uri)]];
        uris := uris - {uri};
      }
      assert listeners.Keys - uris == listeners.Keys;
    }

    method Detach(sink: nat)
      requires Valid()
      modifies this`sinks
      ensures Valid() && sinks == old(sinks) - {sink}
    {
      sinks := sinks - {sink};
    }
  }

  /** Histories only grew, by changes of one kind. */
  ghost predicate Only(before: map<nat, seq<Change>>, after: map<nat, seq<Change>>, adds: bool) {
    forall s :: s in before ==>
      s in after && before[s] <= after[s] && forall c :: c in after[s][|before[s]|..] ==> c.Add? == adds
  }

  lemma {:induction false} OnlyNothing(told: map<nat, seq<Change>>, adds: bool)
    ensures Only(told, told, adds)
  {
  }

  lemma {:induction false} HeardNothing()
    ensures Follows([], {})
  {
  }

  lemma {:induction false} OnlyOneMore(start: map<nat, seq<Change>>, before: map<nat, seq<Change>>,
                                        after: map<nat, seq<Change>>, change: Change)
    requires Only(start, before, change.Add?) && before.Keys == after.Keys
    requires forall s :: s in after ==> after[s] == before[s] + [change] || after[s] == before[s]
    ensures Only(start, after, change.Add?)
  {
    forall s | s in start
      ensures s in after && start[s] <= after[s]
      ensures forall c :: c in after[s][|start[s]|..] ==> c.Add? == change.Add?
    {
      assert s in before;
      if after[s] == before[s] + [change] {
        assert after[s][|start[s]|..] == before[s][|start[s]|..] + [change];
      }
    }
  }

  lemma {:induction false} OnlyTransitive(a: map<nat, seq<Change>>, b: map<nat, seq<Change>>, c: map<nat, seq<Change>>, adds: bool)
    requires Only(a, b, adds) && Only(b, c, adds)
    ensures Only(a, c, adds)
  {
    forall s | s in a
      ensures s in c && a[s] <= c[s] && forall x :: x in c[s][|a[s]|..] ==> x.Add? == adds
    {
      assert c[s][|a[s]|..] == b[s][|a[s]|..] + c[s][|b[s]|..];
    }
  }

  // ----- Read off the wire ------------------------------------------------------------------------

  /** A JSON-RPC message as the observer reads it: a request coming in, or anything that may end one. */
  datatype Message =
    | ListenRequest(id: nat, uris: seq<string>)
    | Cancellation(id: nat)
    | Response(id: nat)
    | Unrelated

  predicate Ends(m: Message, id: nat) { (m.Cancellation? || m.Response?) && m.id == id }

  function Observed(streams: Streams, m: Message): Streams {
    match m
    case ListenRequest(id, uris) => if id in streams then streams else streams[id := Unique(uris)]
    case Cancellation(id) => streams - {id}
    case Response(id) => streams - {id}
    case Unrelated => streams
  }

  method Observe(feed: ListenFeed, m: Message)
    requires feed.Valid()
    modifies feed
    ensures feed.Valid() && feed.sinks == old(feed.sinks)
    ensures feed.streams == Observed(old(feed.streams), m)
  {
    match m
    case ListenRequest(id, uris) => feed.Open(id, uris);
    case Cancellation(id) => feed.Close(id);
    case Response(id) => feed.Close(id);
    case Unrelated =>
  }

  /** The streams open after this traffic. */
  ghost function ObservedAll(messages: seq<Message>): Streams {
    if messages == [] then map[]
    else Observed(ObservedAll(messages[..|messages| - 1]), messages[|messages| - 1])
  }

  /** The request came in and nothing has ended it since. */
  ghost predicate Unanswered(messages: seq<Message>, id: nat) {
    exists k :: 0 <= k < |messages| && messages[k].ListenRequest? && messages[k].id == id
      && forall j :: k < j < |messages| ==> !Ends(messages[j], id)
  }

  /** A stream is open exactly from its request to the first response or cancellation carrying its id. */
  lemma {:induction false} OpenWhileUnanswered(messages: seq<Message>, id: nat)
    ensures id in ObservedAll(messages) <==> Unanswered(messages, id)
  {
    if messages != [] {
      var front, last := messages[..|messages| - 1], messages[|messages| - 1];
      OpenWhileUnanswered(front, id);
      if last.ListenRequest? && last.id == id {
        assert messages[|front|] == last;
      } else if !Ends(last, id) {
        SameUnanswered(front, last, id);
        assert messages == front + [last];
      } else {
        assert Ends(messages[|front|], id);
      }
    }
  }

  /** The request that opened the stream now open: nothing has ended it since, and none with its id was open before it. */
  ghost predicate Opener(messages: seq<Message>, id: nat, k: nat) {
    && k < |messages| && messages[k].ListenRequest? && messages[k].id == id
    && (forall j :: k < j < |messages| ==> !Ends(messages[j], id))
    && !Unanswered(messages[..k], id)
  }

  /** A stream listens to what its own request named, each URI once, whatever was sent under its id since. */
  lemma {:induction false} StreamNamesItsRequest(messages: seq<Message>, id: nat) returns (k: nat)
    requires id in ObservedAll(messages)
    ensures Opener(messages, id, k)
    ensures Distinct(ObservedAll(messages)[id])
    ensures forall uri :: uri in ObservedAll(messages)[id] <==> uri in messages[k].uris
  {
    hide Unanswered;
    var front, last := messages[..|messages| - 1], messages[|messages| - 1];
    if id in ObservedAll(front) {
      k := StreamNamesItsRequest(front, id);
      assert messages[..k] == front[..k];
    } else {
      k := |front|;
      OpenWhileUnanswered(front, id);
    }
  }

  lemma {:induction false} SameUnanswered(front: seq<Message>, last: Message, id: nat)
    requires !Ends(last, id) && !(last.ListenRequest? && last.id == id)
    ensures Unanswered(front + [last], id) <==> Unanswered(front, id)
  {
    var messages := front + [last];
    assert forall k :: 0 <= k < |front| ==> messages[k] == front[k];
    assert messages[|front|] == last;
  }

  // ----- The alert poller's sink ---------------------------------------------------------------

  /** What a poller fed by these changes alone is subscribed to: it subscribes only to URIs that parse. */
  ghost function Subscribed(history: seq<Change>, parses: string -> bool): set<string> {
    if history == [] then {}
    else
      var before := Subscribed(history[..|history| - 1], parses);
      match history[|history| - 1]
      case Add(uri) => if parses(uri) then before + {uri} else before
      case Remove(uri) => before - {uri}
  }

  /** It polls exactly the listened URIs that are alert URIs. */
  lemma {:induction false} PollsWhatIsListened(history: seq<Change>, uris: set<string>, parses: string -> bool)
    requires Follows(history, uris)
    ensures Subscribed(history, parses) == set uri | uri in uris && parses(uri)
  {
    SubscribedHeard(history, parses);
  }

  lemma {:induction false} SubscribedHeard(history: seq<Change>, parses: string -> bool)
    ensures Subscribed(history, parses) == set uri | uri in Heard(history) && parses(uri)
  {
    if history != [] { SubscribedHeard(history[..|history| - 1], parses); }
  }
}
