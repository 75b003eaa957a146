/**
 The DNS service's subscription list: who has asked for which module, and which changes
 still have to be pushed to whom.  Each method is one critical section.
 */
module Subscriptions {
  import opened Seqs

  type Book = map<nat, set<nat>>
  type PushList = map<nat, set<nat>>

  function Subscribed(book: Book, mod: nat, fd: nat): Book {
    book[mod := At(book, mod) + {fd}]
  }

  /** A module nobody subscribes to any more loses its entry. */
  function Unsubscribed(book: Book, mod: nat, fd: nat): Book {
    if mod !in book then book
    else if book[mod] - {fd} == {} then book - {mod}
    else book[mod := book[mod] - {fd}]
  }

  /** The (client, module) pairs still to be pushed. */
  ghost function Pairs(push: PushList): set<(nat, nat)> {
    set fd <- push, mod <- push[fd] :: (fd, mod)
  }

  /** The pairs a publication of `mods` concerns. */
  ghost function Concerned(book: Book, mods: seq<nat>): set<(nat, nat)> {
    set mod <- mods, fd <- At(book, mod) :: (fd, mod)
  }

  /** No entry of the list is empty. */
  ghost predicate NoEmpty<K, V>(m: map<K, set<V>>) {
    forall k <- m :: m[k] != {}
  }

  class SubscribeList {
    var bookList: Book
    var pushList: PushList

    constructor ()
      ensures bookList == map[] && pushList == map[]
    {
      bookList, pushList := map[], map[];
    }

    method Subscribe(mod: nat, fd: nat)
      modifies this`bookList
      ensures bookList == Subscribed(old(bookList), mod, fd)
    {
      bookList := bookList[mod := At(bookList, mod) + {fd}];
    }

    method Unsubscribe(mod: nat, fd: nat)
      modifies this`bookList
      ensures bookList == Unsubscribed(old(bookList), mod, fd)
    {
      if mod in bookList {
        bookList := bookList[mod := bookList[mod] - {fd}];
        if bookList[mod] == {} {
          bookList := bookList - {mod};
          assert bookList == old(bookList) - {mod};
        }
      }
    }

    /** The locked part of `publish`: every subscriber of a changed module gets it pushed. */
    method Publish(mods: seq<nat>)
      modifies this`pushList
      ensures Pairs(pushList) == Pairs(old(pushList)) + Concerned(bookList, mods)
      ensures NoEmpty(old(pushList)) ==> NoEmpty(pushList)
    {
      for i := 0 to |mods|
        invariant Pairs(pushList) == Pairs(old(pushList)) + Concerned(bookList, mods[..i])
        invariant NoEmpty(old(pushList)) ==> NoEmpty(pushList)
      {
        PublishOne(mods[i]);
        assert mods[..i + 1] == mods[..i] + [mods[i]];
        ConcernedMore(bookList, mods[..i], mods[i]);
      }
      assert mods[..|mods|] == mods;
    }

    method PublishOne(mod: nat)
      modifies this`pushList
      ensures Pairs(pushList) == Pairs(old(pushList)) + set fd <- At(bookList, mod) :: (fd, mod)
      ensures NoEmpty(old(pushList)) ==> NoEmpty(pushList)
    {
      var fds := At(bookList, mod);
      var todo := fds;
      while todo != {}
        invariant todo <= fds
        invariant Pairs(pushList) == Pairs(old(pushList)) + set fd <- fds - todo :: (fd, mod)
        invariant NoEmpty(old(pushList)) ==> NoEmpty(pushList)
      {
        var fd :| fd in todo;
        PairsInsert(pushList, fd, mod);
        pushList := pushList[fd := At(pushList, fd) + {mod}];
        todo := todo - {fd};
      }
    }

    /** `make_publish_map`: the pairs of online clients move from the list to the result. */
    method MakePublishMap(online: set<nat>) returns (need: PushList)
      modifies this`pushList
      ensures Pairs(need) == set p <- Pairs(old(pushList)) | p.0 in online
      ensures Pairs(pushList) == Pairs(old(pushList)) - Pairs(need)
      ensures pushList.Keys == old(pushList).Keys - online && need.Keys == old(pushList).Keys * online
      ensures NoEmpty(old(pushList)) ==> NoEmpty(pushList)
    {
      need := map[];
      var rest := pushList.Keys;
      while rest != {}
        invariant rest <= pushList.Keys
        invariant pushList == map fd <- old(pushList).Keys - (online - rest) :: old(pushList)[fd]
        invariant need == map fd <- old(pushList).Keys * (online - rest) :: old(pushList)[fd]
      {
        var fd :| fd in rest;
        if fd in online {
          need := need[fd := pushList[fd]];
          pushList := pushList - {fd};
        }
        rest := rest - {fd};
      }
    }
  }

  /** The subscription side of a connection to the DNS service. */
  class ClientConn {
    const fd: nat
    var mods: set<nat>

    /** `create_subscribe`. */
    constructor (fd: nat)
      ensures this.fd == fd && mods == {}
    {
      this.fd, mods := fd, {};
    }

    /** The subscription part of `get_route`: a module is subscribed on first use. */
    method Request(list: SubscribeList, mod: nat)
      modifies this`mods, list`bookList
      ensures mods == old(mods) + {mod}
      ensures list.bookList == if mod in old(mods) then old(list.bookList) else Subscribed(old(list.bookList), mod, fd)
    {
      if mod !in mods {
        mods := mods + {mod};
        list.Subscribe(mod, fd);
      }
    }

    /** `clear_subscribe`: every module on the client's own list is unsubscribed. */
    method Clear(list: SubscribeList)
      modifies this`mods, list`bookList
      ensures mods == {}
      ensures forall mod: nat ::
        At(list.bookList, mod) == At(old(list.bookList), mod) - if mod in old(mods) then {fd} else {}
      ensures NoEmpty(old(list.bookList)) ==> NoEmpty(list.bookList)
    {
      var todo := mods;
      while todo != {}
        invariant todo <= mods == old(mods)
        invariant forall mod: nat ::
          At(list.bookList, mod) == At(old(list.bookList), mod) - if mod in mods && mod !in todo then {fd} else {}
        invariant NoEmpty(old(list.bookList)) ==> NoEmpty(list.bookList)
      {
        var mod :| mod in todo;
        list.Unsubscribe(mod, fd);
        todo := todo - {mod};
      }
      mods := {};
    }
  }

  lemma ConcernedMore(book: Book, mods: seq<nat>, mod: nat)
    ensures Concerned(book, mods + [mod]) == Concerned(book, mods) + set fd <- At(book, mod) :: (fd, mod)
  {
  }

  lemma PairsInsert(push: PushList, fd: nat, mod: nat)
    ensures Pairs(push[fd := At(push, fd) + {mod}]) == Pairs(push) + {(fd, mod)}
  {
  }
}
