/**
 * The participant registry both servers keep in a Python dict, and the
 * fan-out loop both use to send one line to every participant but one.
 *
 * A dict is modelled as a map from handle to display name together with
 * the order its keys were inserted in (the order a `for` loop over the dict
 * visits them). Every send is an append of a `Sent` record to an outbox.
 */
module Registry {

  datatype Option<T> = None | Some(value: T)

  /** One `send`/`sendto` call: the line `text` went to `to`. */
  datatype Sent<K> = Sent(to: K, text: string)

  ghost predicate Distinct<K>(s: seq<K>)
  {
    forall i, j :: 0 <= i < j < |s| ==> s[i] != s[j]
  }

  /** `order` lists the keys of `clients` once each, in insertion order. */
  ghost predicate Tracks<K(!new)>(clients: map<K, string>, order: seq<K>)
  {
    && Distinct(order)
    && (forall k :: k in clients <==> k in order)
  }

  /** No two participants share a display name. */
  ghost predicate UniqueNames<K(!new)>(clients: map<K, string>)
  {
    forall a, b :: a in clients && b in clients && a != b ==> clients[a] != clients[b]
  }

  /** The key order after `del d[k]`: `k` dropped, the rest in the same order. */
  function Without<K(==, !new)>(order: seq<K>, k: K): (r: seq<K>)
    ensures forall x :: x in r <==> x in order && x != k
    ensures Distinct(order) ==> Distinct(r)
    ensures k !in order ==> r == order
    ensures Distinct(order) && |order| > 0 && order[0] == k ==> r == order[1..]
  {
    if order == [] then []
    else if order[0] == k then Without(order[1..], k)
    else
      var rest := Without(order[1..], k);
      assert Distinct(order) ==> order[0] !in order[1..];
      [order[0]] + rest
  }

  /** The position of the first occurrence of `k` in `s`. */
  function IndexOf<K(==)>(s: seq<K>, k: K): (i: nat)
    requires k in s
    ensures i < |s| && s[i] == k && k !in s[..i]
  {
    if s[0] == k then 0
    else
      var i := IndexOf(s[1..], k);
      assert s[..i + 1] == [s[0]] + s[1..][..i];
      i + 1
  }

  /** `del d[k]` keeps the remaining keys in their insertion order: only `k` is cut out. */
  lemma {:induction false} WithoutKeepsOrder<K(!new)>(order: seq<K>, k: K)
    requires Distinct(order) && k in order
    ensures Without(order, k) == order[..IndexOf(order, k)] + order[IndexOf(order, k) + 1..]
  {
    if order[0] != k {
      var rest := order[1..];
      assert Distinct(rest);
      WithoutKeepsOrder(rest, k);
      var i := IndexOf(rest, k);
      assert IndexOf(order, k) == i + 1;
      assert order[..i + 1] == [order[0]] + rest[..i];
      assert order[i + 2..] == rest[i + 1..];
    }
  }

  /** The key order after `d[k] = v`: a new key goes last, an existing key keeps its place. */
  function Insert<K(==, !new)>(order: seq<K>, k: K): (r: seq<K>)
  {
    if k in order then order else order + [k]
  }

  /** Inserting keeps the order in step with the map. */
  lemma InsertTracks<K(!new)>(clients: map<K, string>, order: seq<K>, k: K, name: string)
    requires Tracks(clients, order)
    ensures Tracks(clients[k := name], Insert(order, k))
    ensures k !in clients ==> Insert(order, k)[|Insert(order, k)| - 1] == k
  {
    if k !in order {
      var r := order + [k];
      forall i, j | 0 <= i < j < |r| ensures r[i] != r[j] {
        if j == |order| {
          assert r[i] == order[i];
        }
      }
    }
  }

  /** Removing keeps the order in step with the map. */
  lemma WithoutTracks<K(!new)>(clients: map<K, string>, order: seq<K>, k: K)
    requires Tracks(clients, order)
    ensures Tracks(clients - {k}, Without(order, k))
  {
  }

  /**
   * A newcomer whose name is not taken keeps the names unique, even when
   * its handle was already registered under another name (a re-join).
   */
  lemma InsertKeepsNamesUnique<K(!new)>(clients: map<K, string>, k: K, name: string)
    requires UniqueNames(clients)
    requires name !in clients.Values
    ensures UniqueNames(clients[k := name])
  {
    var c := clients[k := name];
    forall a, b | a in c && b in c && a != b ensures c[a] != c[b] {
      if a == k {
        assert c[b] == clients[b] && clients[b] in clients.Values;
      } else if b == k {
        assert c[a] == clients[a] && clients[a] in clients.Values;
      }
    }
  }

  /** Once a participant is removed its name is free for someone else. */
  lemma RemoveFreesName<K(!new)>(clients: map<K, string>, k: K)
    requires UniqueNames(clients)
    requires k in clients
    ensures clients[k] !in (clients - {k}).Values
    ensures (clients - {k}).Values == clients.Values - {clients[k]}
  {
    var rest := clients - {k};
    forall b | b in rest ensures rest[b] != clients[k] {
      assert b != k && b in clients;
    }
    forall v | v in clients.Values - {clients[k]} ensures v in rest.Values {
      var a :| a in clients && clients[a] == v;
      assert a in rest;
    }
  }

  /** The dict's length, `len(d)`, is the number of keys in the order. */
  lemma {:induction false} SizeIsOrderLength<K(!new)>(clients: map<K, string>, order: seq<K>)
    requires Tracks(clients, order)
    ensures |clients| == |order|
    decreases |order|
  {
    if order == [] {
      assert clients.Keys == {};
    } else {
      var k := order[|order| - 1];
      var front := order[..|order| - 1];
      assert k !in front;
      assert Tracks(clients - {k}, front) by {
        forall x ensures x in clients - {k} <==> x in front {
          if x in order && x != k {
            var i :| 0 <= i < |order| && order[i] == x;
            assert i < |order| - 1;
          }
        }
      }
      SizeIsOrderLength(clients - {k}, front);
      assert clients == (clients - {k})[k := clients[k]];
    }
  }

  /**
   * The sends of a loop `for k in order: if k != skip: send(k, text)`;
   * with `skip == None` every key receives the line.
   */
  function FanOut<K(==, !new)>(order: seq<K>, skip: Option<K>, text: string): (out: seq<Sent<K>>)
    ensures |out| <= |order|
    ensures forall s :: s in out ==> s.to in order && Some(s.to) != skip && s.text == text
  {
    if order == [] then []
    else
      var last := order[|order| - 1];
      FanOut(order[..|order| - 1], skip, text) + (if Some(last) == skip then [] else [Sent(last, text)])
  }

  /**
   * Exactly once to every other participant: in a fan-out over distinct
   * keys, each key other than `skip` receives the line exactly once, and
   * nothing else is sent.
   */
  lemma {:induction false} FanOutExactlyOnce<K(!new)>(order: seq<K>, skip: Option<K>, text: string, s: Sent<K>)
    requires Distinct(order)
    ensures multiset(FanOut(order, skip, text))[s] ==
              if s.text == text && s.to in order && Some(s.to) != skip then 1 else 0
    decreases |order|
  {
    if order != [] {
      var last := order[|order| - 1];
      var front := order[..|order| - 1];
      assert order == front + [last];
      FanOutExactlyOnce(front, skip, text, s);
      assert last !in front;
    }
  }
}
