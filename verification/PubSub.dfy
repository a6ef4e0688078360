/** The subscription registry and the handling of one published path
    (config/service_pubsub.go). The two-level map of the source is proved to behave like a flat
    map from subscription id to topic. */
module PubSub {
  import opened Common
  import opened Path
  import opened PathObject
  import opened Topics

  datatype Receiver = Receiver(name: string)

  /** The ids subscribed to a topic. */
  ghost function Subscribed(view: map<nat, string>, topic: string): set<nat> {
    set id | id in view && view[id] == topic
  }

  ghost function IDs(s: seq<nat>): set<nat> { set id | id in s }

  ghost function Failing(ids: set<nat>, fails: nat -> bool): set<nat> { set id | id in ids && fails(id) }

  lemma IDsOfSum(a: seq<nat>, b: seq<nat>)
    ensures IDs(a + b) == IDs(a) + IDs(b)
  {
    assert forall id :: id in a + b <==> id in a || id in b;
  }

  lemma EmptyIDs(s: seq<nat>)
    ensures IDs(s) == {} ==> s == []
  {
    if s != [] { assert s[0] in IDs(s); }
  }

  /** sendMsgs: each of the given subscribers gets the message once, in any order. */
  method SendMsgs(ids: set<nat>, fails: nat -> bool) returns (delivered: seq<nat>, evict: seq<nat>)
    ensures Distinct(delivered)
    ensures IDs(delivered) == ids
    ensures IDs(evict) == Failing(IDs(delivered), fails)
  {
    delivered, evict := [], [];
    var todo := ids;
    while todo != {}
      invariant todo <= ids && Distinct(delivered)
      invariant IDs(delivered) == ids - todo
      invariant IDs(evict) == Failing(IDs(delivered), fails)
    {
      var id :| id in todo;
      IDsOfSum(delivered, [id]);
      IDsOfSum(evict, [id]);
      delivered := delivered + [id];
      if fails(id) { evict := evict + [id]; }
      todo := todo - {id};
    }
  }

  /** Each id lives under exactly one topic, and no topic is empty. */
  ghost predicate Agree(subMap: map<string, map<nat, Receiver>>, view: map<nat, string>) {
    && (forall t, id {:trigger id in subMap[t]} | t in subMap && id in subMap[t] :: id in view && view[id] == t)
    && (forall id | id in view :: view[id] in subMap && id in subMap[view[id]])
    && (forall t | t in subMap :: t != "" && subMap[t].Keys != {})
  }

  /** Who receives for each subscription. */
  ghost function ReceiversOf(subMap: map<string, map<nat, Receiver>>, view: map<nat, string>): (r: map<nat, Receiver>)
    requires Agree(subMap, view)
    ensures r.Keys == view.Keys
  {
    map id | id in view :: subMap[view[id]][id]
  }

  lemma AgreeWith(subMap: map<string, map<nat, Receiver>>, view: map<nat, string>, path: string, id: nat, mr: Receiver)
    requires Agree(subMap, view) && path != "" && id !in view
    ensures var topics := if path in subMap then subMap else subMap[path := map[]];
            && Agree(topics[path := topics[path][id := mr]], view[id := path])
            && ReceiversOf(topics[path := topics[path][id := mr]], view[id := path]) ==
               ReceiversOf(subMap, view)[id := mr]
  {
    var topics := if path in subMap then subMap else subMap[path := map[]];
    assert id in topics[path][id := mr].Keys;
  }

  lemma AgreeWithout(subMap: map<string, map<nat, Receiver>>, view: map<nat, string>, path: string, id: nat,
                     rest: map<nat, Receiver>)
    requires Agree(subMap, view) && path in subMap && id in subMap[path] && rest == subMap[path] - {id}
    ensures Agree(if |rest| == 0 then subMap - {path} else subMap[path := rest], view - {id})
  {
    assert |rest| == 0 <==> rest.Keys == {};
    var after := if |rest| == 0 then subMap - {path} else subMap[path := rest];
    forall q | q in view && q != id
      ensures view[q] in after && q in after[view[q]]
    {
      if view[q] == path { assert q in rest.Keys; }
    }
  }

  lemma ReceiverOf(subMap: map<string, map<nat, Receiver>>, view: map<nat, string>, id: nat)
    requires Agree(subMap, view) && id in view
    ensures view[id] in subMap && id in subMap[view[id]] && ReceiversOf(subMap, view)[id] == subMap[view[id]][id]
  {
  }

  lemma ReceiversWithout(subMap: map<string, map<nat, Receiver>>, view: map<nat, string>, path: string, id: nat,
                         rest: map<nat, Receiver>, after: map<string, map<nat, Receiver>>)
    requires Agree(subMap, view) && path in subMap && id in subMap[path] && rest == subMap[path] - {id}
    requires after == (if |rest| == 0 then subMap - {path} else subMap[path := rest]) && Agree(after, view - {id})
    ensures ReceiversOf(after, view - {id}) == ReceiversOf(subMap, view) - {id}
  {
    hide Agree, ReceiversOf;
    var less := view - {id};
    forall q | q in less ensures ReceiversOf(after, less)[q] == ReceiversOf(subMap, view)[q] {
      ReceiverOf(subMap, view, q);
      ReceiverOf(after, less, q);
    }
    assert ReceiversOf(after, less).Keys == less.Keys == (ReceiversOf(subMap, view) - {id}).Keys;
  }

  class Registry {
    var subMap: map<string, map<nat, Receiver>>
    var subAutoInc: nat
    // the topic of every subscription
    ghost var view: map<nat, string>

    ghost predicate Valid()
      reads this
    {
      Agree(subMap, view) && forall id | id in view :: 1 <= id <= subAutoInc
    }

    ghost function Receivers(): map<nat, Receiver>
      requires Valid()
      reads this
    {
      ReceiversOf(subMap, view)
    }

    constructor ()
      ensures Valid() && view == map[] && subAutoInc == 0
    {
      subMap, subAutoInc, view := map[], 0, map[];
    }

    /** A new id that was never given out before. */
    method Subscribe(path: string, mr: Receiver) returns (r: Result<nat>)
      requires Valid()
      modifies this
      ensures Valid()
      ensures path == "" ==> r == Err(Empty) && unchanged(this)
      ensures path != "" ==> r == Ok(subAutoInc) && subAutoInc == old(subAutoInc) + 1 &&
                             subAutoInc !in old(view) && view == old(view)[subAutoInc := path] &&
                             Receivers() == old(Receivers())[subAutoInc := mr]
    {
      hide Agree, ReceiversOf;
      if path == "" { return Err(Empty); }
      AgreeWith(subMap, view, path, subAutoInc + 1, mr);
      subAutoInc := subAutoInc + 1;
      var id: nat := subAutoInc;
      if path !in subMap { subMap := subMap[path := map[]]; }
      var subs: map<nat, Receiver> := subMap[path][id := mr];
      subMap := subMap[path := subs];
      view := view[id := path];
      r := Ok(id);
    }

    /** Removes an id wherever it is; an unknown id changes nothing. */
    method Unsubscribe(subscriptionID: nat)
      requires Valid()
      modifies this
      ensures Valid() && view == old(view) - {subscriptionID} && subAutoInc == old(subAutoInc)
      ensures Receivers() == old(Receivers()) - {subscriptionID}
    {
      hide ReceiversOf;
      var todo := subMap.Keys;
      while todo != {}
        invariant todo <= subMap.Keys && Valid() && unchanged(this)
        invariant forall t | t in subMap.Keys - todo :: subscriptionID !in subMap[t]
      {
        var path :| path in todo;
        if subscriptionID in subMap[path] {
          Remove(path, subscriptionID);
          return;
        }
        todo := todo - {path};
      }
      assert subscriptionID !in view;
      assert Receivers() - {subscriptionID} == Receivers();
    }

    /** Drops one id of a topic, and the topic with its last id. */
    method Remove(path: string, id: nat)
      requires Valid() && path in subMap && id in subMap[path]
      modifies this`subMap, this`view
      ensures Valid() && view == old(view) - {id} && Receivers() == old(Receivers()) - {id}
    {
      hide Agree, ReceiversOf;
      var rest := subMap[path] - {id};
      AgreeWithout(subMap, view, path, id, rest);
      ReceiversWithout(subMap, view, path, id, rest, if |rest| == 0 then subMap - {path} else subMap[path := rest]);
      if |rest| == 0 {
        subMap := subMap - {path};
      } else {
        subMap := subMap[path := rest];
      }
      view := view - {id};
    }

    /** readMapAndSend on a topic: every subscriber of it gets the message once; the failing ones
        are reported. */
    method SendTo(topic: string, fails: nat -> bool) returns (delivered: seq<nat>, evict: seq<nat>)
      requires Valid()
      ensures Distinct(delivered)
      ensures IDs(delivered) == Subscribed(view, topic)
      ensures IDs(evict) == Failing(IDs(delivered), fails)
    {
      if topic in subMap {
        delivered, evict := SendMsgs(subMap[topic].Keys, fails);
        assert subMap[topic].Keys == Subscribed(view, topic) by {
          assert forall id | id in subMap[topic] :: id in view && view[id] == topic;
        }
      } else {
        delivered, evict := [], [];
        assert Subscribed(view, topic) == {};
      }
    }

    /** The ids a message reaches: those subscribed to one of its first n topics. */
    ghost function Reached(fq: string, n: nat): set<nat>
      reads this
    {
      set id | id in view && exists i | 0 <= i < n :: Topic(fq, i) == view[id]
    }

    /** The five calls of readMapAndSend. */
    method Deliver(rt: Runes, p: PathRef, fails: nat -> bool) returns (delivered: seq<nat>, evict: seq<nat>)
      requires Valid()
      ensures Distinct(delivered)
      ensures match FQ(rt, p.Value())
              case Err(_) => delivered == []
              case Ok(fq) => IDs(delivered) == Reached(fq, ROUNDS)
      ensures IDs(evict) == Failing(IDs(delivered), fails)
    {
      hide FQ, Topic;
      delivered, evict := [], [];
      ghost var text := FQ(rt, p.Value());
      if text.Ok? { FQIsQualified(rt, p.Value()); }
      for i := 0 to ROUNDS
        invariant Distinct(delivered)
        invariant text.Err? ==> delivered == []
        invariant text.Ok? ==> IDs(delivered) == Reached(text.value, i)
        invariant IDs(evict) == Failing(IDs(delivered), fails)
      {
        var d, e := ReadMapAndSend(rt, p, i, fails);
        if text.Ok? { NextRound(text.value, i, delivered, d); }
        IDsOfSum(delivered, d);
        IDsOfSum(evict, e);
        delivered, evict := delivered + d, evict + e;
      }
    }

    method ReadMapAndSend(rt: Runes, p: PathRef, i: nat, fails: nat -> bool)
        returns (delivered: seq<nat>, evict: seq<nat>)
      requires Valid()
      ensures Distinct(delivered)
      ensures match FQ(rt, p.Value())
              case Err(_) => delivered == []
              case Ok(fq) => IDs(delivered) == Subscribed(view, Topic(fq, i))
      ensures IDs(evict) == Failing(IDs(delivered), fails)
    {
      hide FQ, LevelOf;
      var lev := p.Level(rt, Depth(i));
      delivered, evict := SendTo(if lev.Ok? then lev.value else "", fails);
      if lev.Err? {
        assert Subscribed(view, "") == {};
        EmptyIDs(delivered);
      }
    }

    /** Removes all listed ids. */
    method Evict(ids: seq<nat>)
      requires Valid()
      modifies this
      ensures Valid() && subAutoInc == old(subAutoInc) && view == old(view) - IDs(ids)
      ensures Receivers() == old(Receivers()) - IDs(ids)
    {
      hide Registry.Valid, ReceiversOf, Agree;
      for i := 0 to |ids|
        invariant Valid() && subAutoInc == old(subAutoInc)
        invariant view == old(view) - IDs(ids[..i]) && Receivers() == old(Receivers()) - IDs(ids[..i])
      {
        Unsubscribe(ids[i]);
        IDsOfSum(ids[..i], [ids[i]]);
        assert ids[..i + 1] == ids[..i] + [ids[i]];
      }
      assert ids[..|ids|] == ids;
    }

    /** One turn of the publisher's loop: the message goes to each subscriber of one of its five
        topics exactly once, and exactly the failing receivers are removed. */
    method Publish(rt: Runes, p: PathRef, fails: nat -> bool) returns (delivered: seq<nat>)
      requires Valid()
      modifies this
      ensures Valid() && Distinct(delivered) && subAutoInc == old(subAutoInc)
      ensures match FQ(rt, p.Value())
              case Err(_) => delivered == [] && view == old(view)
              case Ok(fq) =>
                && IDs(delivered) == old(Reached(fq, ROUNDS))
                && view == old(view) - Failing(old(Reached(fq, ROUNDS)), fails)
      ensures forall id | id in old(view) :: id in view <==> !(id in delivered && fails(id))
      ensures Receivers() == old(Receivers()) - (old(view).Keys - view.Keys)
    {
      hide FQ, Topic, ReceiversOf, Agree;
      delivered := [];
      if |subMap| == 0 {
        assert view.Keys == {} by { NoTopics(); }
        return;
      }
      var evict;
      delivered, evict := Deliver(rt, p, fails);
      assert forall id | id in delivered :: id in IDs(delivered);
      Evict(evict);
    }

    lemma NoTopics()
      requires Valid() && |subMap| == 0
      ensures view.Keys == {}
    {
      if id :| id in view { assert view[id] in subMap.Keys; }
    }

    lemma NextRound(fq: string, i: nat, delivered: seq<nat>, d: seq<nat>)
      requires Qualified(fq) && i < ROUNDS && Distinct(delivered) && Distinct(d)
      requires IDs(delivered) == Reached(fq, i)
      requires IDs(d) == Subscribed(view, Topic(fq, i))
      ensures Distinct(delivered + d)
      ensures IDs(delivered + d) == Reached(fq, i + 1)
    {
      IDsOfSum(delivered, d);
      forall j | 0 <= j < i
        ensures Topic(fq, j) != Topic(fq, i)
      {
        TopicsDiffer(fq, j, i);
      }
      forall a, b | 0 <= a < |delivered| && 0 <= b < |d|
        ensures delivered[a] != d[b]
      {
        assert delivered[a] in IDs(delivered) && d[b] in IDs(d);
      }
    }
  }
}
