/** Who is told when PTR records expire: mdns_priv_browse_notify_ptr_goodbye_from_service_cache in
    components/mdns/mdns_browser.c, called in the middle of the expiry pass. */
module CacheGoodbyes {
  import opened Common
  import opened CacheModel
  import opened CacheViews
  import opened CacheExpiry
  import opened CacheTrim

  /** The notifier of the browse with this index is called about the loss of the record. */
  datatype Goodbye = Goodbye(browse: nat, key: Key)

  /** The browse asks for exactly this PTR record: that of the service, or that of the subtype. */
  predicate Asks(b: Browse, k: Key) {
    && IsAnnounced(k) && b.running && b.notifier
    && b.service == k.svc.names.service && b.proto == k.svc.names.proto
    && b.subtype == if k.PtrKey? then "" else k.subtype
  }

  /** Every browse is told once of every lost PTR record it asks for, and of nothing else. */
  ghost predicate ToldGoodbyes(told: seq<Goodbye>, gone: set<Row>, browses: seq<Browse>) {
    && NoRepeat(told)
    && forall i: nat, k :: Goodbye(i, k) in told <==> i < |browses| && HasKey(gone, k) && Asks(browses[i], k)
  }

  function GoodbyesFor(indices: seq<nat>, k: Key): (r: seq<Goodbye>) {
    seq(|indices|, i requires 0 <= i < |indices| => Goodbye(indices[i], k))
  }

  lemma GoodbyesHave(indices: seq<nat>, k: Key, i: nat, key: Key)
    ensures Goodbye(i, key) in GoodbyesFor(indices, k) <==> key == k && i in indices
  {
    if key == k && i in indices {
      var n :| 0 <= n < |indices| && indices[n] == i;
      assert GoodbyesFor(indices, k)[n] == Goodbye(i, key);
    }
  }

  lemma {:induction false} GoodbyesOnce(indices: seq<nat>, k: Key)
    requires NoRepeat(indices)
    ensures NoRepeat(GoodbyesFor(indices, k))
  {
    if indices != [] {
      assert GoodbyesFor(indices, k)[1..] == GoodbyesFor(indices[1..], k);
      GoodbyesHave(indices[1..], k, indices[0], k);
      GoodbyesOnce(indices[1..], k);
    }
  }

  lemma OneMoreKey(gone: set<Row>, x: Row, k: Key)
    ensures HasKey(gone + {x}, k) <==> HasKey(gone, k) || k == x.key
  {
    if HasKey(gone, k) {
      var z :| z in gone && z.key == k;
      assert z in gone + {x};
    }
    assert x in gone + {x};
  }

  /** One more record is lost. */
  lemma TellGoodbye(told: seq<Goodbye>, gone: set<Row>, browses: seq<Browse>, x: Row, indices: seq<nat>)
    requires ToldGoodbyes(told, gone, browses) && !HasKey(gone, x.key) && NoRepeat(indices)
    requires forall i :: i in indices <==> 0 <= i < |browses| && Asks(browses[i], x.key)
    ensures ToldGoodbyes(told + GoodbyesFor(indices, x.key), gone + {x}, browses)
  {
    var latest := GoodbyesFor(indices, x.key);
    GoodbyesOnce(indices, x.key);
    forall g | g in latest ensures g !in told {
      GoodbyesHave(indices, x.key, g.browse, g.key);
    }
    NoRepeatJoin(told, latest);
    forall i: nat, k
      ensures Goodbye(i, k) in told + latest <==> i < |browses| && HasKey(gone + {x}, k) && Asks(browses[i], k)
    {
      OneMoreKey(gone, x, k);
      GoodbyesHave(indices, x.key, i, k);
    }
  }
}
