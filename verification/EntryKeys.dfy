/** The string key of a cache entry, and a decoder that undoes it (pkg/scaler/metric_cache.go). */
module EntryKeys {
  import opened Telemetry

  /** A scrape target; the timeout is not part of its identity. */
  datatype Target = Target(owner: NamespacedName, cfg: ScrapeConfig, source: string)

  datatype Identity = Identity(namespace: string, name: string, protocol: string, port: string,
                               path: string, source: string)

  function IdentityOf(t: Target): Identity {
    Identity(t.owner.namespace, t.owner.name, t.cfg.protocol, t.cfg.port, t.cfg.path, t.source)
  }

  function EntryKey(t: Target): string {
    t.owner.namespace + "/" + t.owner.name + "|" + t.cfg.protocol + "|" + t.cfg.port + "|" +
    t.cfg.path + "|" + t.source
  }

  /** No component contains the separator that ends it; the path is arbitrary. */
  predicate SeparableIdentity(id: Identity) {
    && '/' !in id.namespace && '|' !in id.name
    && '|' !in id.protocol && '|' !in id.port && '|' !in id.source
  }

  predicate Separable(t: Target) {
    SeparableIdentity(IdentityOf(t))
  }

  /** The key of an identity. */
  function Print(id: Identity): string {
    id.namespace + (['/'] + (id.name + (['|'] + (id.protocol + (['|'] + (id.port + (['|'] +
      (id.path + (['|'] + id.source)))))))))
  }

  lemma KeyIsPrint(t: Target)
    ensures EntryKey(t) == Print(IdentityOf(t))
  {
  }

  /** Index of the first occurrence of c, or |s|. */
  function First(s: string, c: char): (i: nat)
    ensures i <= |s|
  {
    if s == "" || s[0] == c then 0 else 1 + First(s[1..], c)
  }

  /** Index just after the last occurrence of c, or 0. */
  function AfterLast(s: string, c: char): (i: nat)
    ensures i <= |s|
  {
    if s == "" then 0
    else if s[|s| - 1] == c then |s|
    else AfterLast(s[..|s| - 1], c)
  }

  /** Text before and after the first separator. */
  function Cut(s: string, c: char): (string, string) {
    var i := First(s, c);
    (s[..i], if i < |s| then s[i + 1..] else "")
  }

  /** Text before and after the last separator. */
  function CutLast(s: string, c: char): (string, string) {
    var i := AfterLast(s, c);
    (if i > 0 then s[..i - 1] else "", s[i..])
  }

  function Decode(key: string): Identity {
    var (namespace, r1) := Cut(key, '/');
    var (name, r2) := Cut(r1, '|');
    var (protocol, r3) := Cut(r2, '|');
    var (port, r4) := Cut(r3, '|');
    var (path, source) := CutLast(r4, '|');
    Identity(namespace, name, protocol, port, path, source)
  }

  lemma {:induction false} FirstAtSeparator(head: string, c: char, tail: string)
    requires c !in head
    ensures First(head + [c] + tail, c) == |head|
  {
    if head != "" {
      assert (head + [c] + tail)[1..] == head[1..] + [c] + tail;
      FirstAtSeparator(head[1..], c, tail);
    }
  }

  lemma CutAtSeparator(head: string, c: char, tail: string)
    requires c !in head
    ensures Cut(head + [c] + tail, c) == (head, tail)
  {
    FirstAtSeparator(head, c, tail);
    var s := head + [c] + tail;
    assert s[..|head|] == head && s[|head| + 1..] == tail;
  }

  lemma {:induction false} CutLastAtSeparator(head: string, c: char, tail: string)
    requires c !in tail
    ensures AfterLast(head + [c] + tail, c) == |head| + 1
    ensures CutLast(head + [c] + tail, c) == (head, tail)
  {
    var s := head + [c] + tail;
    if tail != "" {
      assert s[..|s| - 1] == head + [c] + tail[..|tail| - 1];
      CutLastAtSeparator(head, c, tail[..|tail| - 1]);
    }
    assert s[..|head|] == head && s[|head| + 1..] == tail;
  }

  lemma {:induction false} FirstIsFirst(s: string, c: char)
    ensures c !in s[..First(s, c)] && (First(s, c) < |s| ==> s[First(s, c)] == c)
  {
    if s != "" && s[0] != c {
      FirstIsFirst(s[1..], c);
      assert s[..First(s, c)] == [s[0]] + s[1..][..First(s[1..], c)];
    }
  }

  lemma {:induction false} NothingAfterLast(s: string, c: char)
    ensures c !in s[AfterLast(s, c)..] && (AfterLast(s, c) > 0 ==> s[AfterLast(s, c) - 1] == c)
  {
    if s != "" && s[|s| - 1] != c {
      NothingAfterLast(s[..|s| - 1], c);
      assert s[AfterLast(s, c)..] == s[..|s| - 1][AfterLast(s, c)..] + [s[|s| - 1]];
    }
  }

  /** Cutting at a separator that is there puts it back when joined. */
  lemma CutJoins(s: string, c: char)
    requires c in s
    ensures var (head, tail) := Cut(s, c); c !in head && s == head + [c] + tail
  {
    FirstIsFirst(s, c);
    var i := First(s, c);
    assert s[..|s|] == s;
    assert s == s[..i] + [s[i]] + s[i + 1..];
  }

  lemma CutLastJoins(s: string, c: char)
    requires c in s
    ensures var (head, tail) := CutLast(s, c); c !in tail && s == head + [c] + tail
  {
    NothingAfterLast(s, c);
    var i := AfterLast(s, c);
    assert s[0..] == s;
    assert s == s[..i - 1] + [s[i - 1]] + s[i..];
  }

  lemma {:induction false} FirstAtMost(s: string, c: char, j: nat)
    requires j < |s| && s[j] == c
    ensures First(s, c) <= j
  {
    if s[0] != c {
      FirstAtMost(s[1..], c, j - 1);
    }
  }

  /** What follows a separator is still there after cutting at the first one. */
  lemma CutKeeps(s: string, c: char, j: nat)
    requires j < |s| && s[j] == c
    ensures var rest := Cut(s, c).1; |s| - j - 1 <= |rest| && rest[|rest| - (|s| - j - 1)..] == s[j + 1..]
  {
    FirstAtMost(s, c, j);
    DropDrop(s, First(s, c) + 1, j + 1);
  }

  lemma DropDrop(s: string, i: nat, j: nat)
    requires i <= j <= |s|
    ensures s[i..][j - i..] == s[j..]
  {
  }

  /** The text ends in `tail`. */
  predicate EndsIn(s: string, tail: string) {
    |tail| <= |s| && s[|s| - |tail|..] == tail
  }

  lemma EndsAt(s: string, head: string, c: char, tail: string)
    requires EndsIn(s, head + [c] + tail)
    ensures var j := |s| - |tail| - 1; 0 <= j && s[j] == c && s[j + 1..] == tail
  {
    var i := |s| - |head + [c] + tail|;
    assert s[i..][|head|] == c;
    DropDrop(s, i, i + |head| + 1);
    assert (head + [c] + tail)[|head| + 1..] == tail;
  }

  lemma CutNext(s: string, head: string, c: char, tail: string)
    requires EndsIn(s, head + [c] + tail)
    ensures c in s && EndsIn(Cut(s, c).1, tail)
  {
    EndsAt(s, head, c, tail);
    CutKeeps(s, c, |s| - |tail| - 1);
  }

  lemma Joined(id: Identity, r1: string, r2: string, r3: string, r4: string)
    requires r1 == id.name + ['|'] + r2 && r2 == id.protocol + ['|'] + r3
    requires r3 == id.port + ['|'] + r4 && r4 == id.path + ['|'] + id.source
    ensures Print(id) == id.namespace + ['/'] + r1
  {
    assert r4 == id.path + (['|'] + id.source);
    assert r3 == id.port + (['|'] + r4);
    assert r2 == id.protocol + (['|'] + r3);
    assert r1 == id.name + (['|'] + r2);
  }

  /** Every separator the decoder looks for is there. */
  lemma SeparatorsFound(id: Identity)
    ensures var s := Print(id);
            var r1 := Cut(s, '/').1;
            var r2 := Cut(r1, '|').1;
            var r3 := Cut(r2, '|').1;
            var r4 := Cut(r3, '|').1;
            '/' in s && '|' in r1 && '|' in r2 && '|' in r3 && '|' in r4
  {
    var t4 := id.path + ['|'] + id.source;
    var t3 := id.port + ['|'] + t4;
    var t2 := id.protocol + ['|'] + t3;
    var t1 := id.name + ['|'] + t2;
    var s := Print(id);
    Joined(id, t1, t2, t3, t4);
    CutNext(s, id.namespace, '/', t1);
    var r1 := Cut(s, '/').1;
    CutNext(r1, id.name, '|', t2);
    var r2 := Cut(r1, '|').1;
    CutNext(r2, id.protocol, '|', t3);
    var r3 := Cut(r2, '|').1;
    CutNext(r3, id.port, '|', t4);
    CutNext(Cut(r3, '|').1, id.path, '|', id.source);
  }

  /** Decoding any key gives a separable identity with that key. */
  lemma PrintOfDecode(id: Identity)
    ensures Print(Decode(Print(id))) == Print(id) && SeparableIdentity(Decode(Print(id)))
  {
    var s := Print(id);
    var r1 := Cut(s, '/').1;
    var r2 := Cut(r1, '|').1;
    var r3 := Cut(r2, '|').1;
    var r4 := Cut(r3, '|').1;
    SeparatorsFound(id);
    CutJoins(s, '/');
    CutJoins(r1, '|');
    CutJoins(r2, '|');
    CutJoins(r3, '|');
    CutLastJoins(r4, '|');
    Joined(Decode(s), r1, r2, r3, r4);
  }

  /** The decoder recovers every component from the printed key exactly when no separator is in a
      component it delimits; the path is arbitrary. */
  lemma DecodeEntryKey(t: Target)
    ensures Decode(EntryKey(t)) == IdentityOf(t) <==> Separable(t)
  {
    KeyIsPrint(t);
    PrintOfDecode(IdentityOf(t));
    if Separable(t) {
      DecodeSeparable(IdentityOf(t));
    }
  }

  lemma DecodeSeparable(id: Identity)
    requires SeparableIdentity(id)
    ensures Decode(Print(id)) == id
  {
    var r4 := id.path + ['|'] + id.source;
    var r3 := id.port + ['|'] + r4;
    var r2 := id.protocol + ['|'] + r3;
    var r1 := id.name + ['|'] + r2;
    assert Print(id) == id.namespace + ['/'] + r1;
    CutAtSeparator(id.namespace, '/', r1);
    CutAtSeparator(id.name, '|', r2);
    CutAtSeparator(id.protocol, '|', r3);
    CutAtSeparator(id.port, '|', r4);
    CutLastAtSeparator(id.path, '|', id.source);
  }

  /** For a separable target, a target has its key and is separable too exactly when the two agree on
      everything but the timeout. */
  lemma KeysDoNotCollide(a: Target, b: Target)
    requires Separable(a)
    ensures EntryKey(a) == EntryKey(b) && Separable(b) <==> IdentityOf(a) == IdentityOf(b)
  {
    KeyIsPrint(a);
    KeyIsPrint(b);
    DecodeEntryKey(a);
    DecodeEntryKey(b);
  }

  /** In particular, with names free of '/' and '|' and no '|' in protocol, port and source, two targets
      share an entry exactly when they have the same InferenceSet, protocol, port, path and source. */
  lemma KeysTellTargetsApart(a: Target, b: Target)
    requires forall c | c == '/' || c == '|' :: c !in a.owner.namespace && c !in b.owner.namespace
    requires forall c | c == '/' || c == '|' :: c !in a.owner.name && c !in b.owner.name
    requires '|' !in a.cfg.protocol + a.cfg.port + a.source && '|' !in b.cfg.protocol + b.cfg.port + b.source
    ensures EntryKey(a) == EntryKey(b) <==>
              && a.owner == b.owner && a.cfg.protocol == b.cfg.protocol && a.cfg.port == b.cfg.port
              && a.cfg.path == b.cfg.path && a.source == b.source
  {
    assert Separable(a) && Separable(b);
    KeysDoNotCollide(a, b);
  }

  /** Exactly the targets that are not separable take over the entry of a different target that
      is. */
  lemma KeyIsStolenExactlyWhen(t: Target)
    ensures (exists u: Target | Separable(u) && IdentityOf(u) != IdentityOf(t) :: EntryKey(u) == EntryKey(t))
            <==> !Separable(t)
  {
    if Separable(t) {
      forall u: Target | Separable(u) && IdentityOf(u) != IdentityOf(t) ensures EntryKey(u) != EntryKey(t) {
        KeysDoNotCollide(t, u);
      }
    } else {
      var id := Decode(EntryKey(t));
      KeyIsPrint(t);
      DecodeEntryKey(t);
      PrintOfDecode(IdentityOf(t));
      var u := Target(NamespacedName(id.namespace, id.name),
                      ScrapeConfig(id.protocol, id.port, id.path, t.cfg.timeout), id.source);
      KeyIsPrint(u);
      assert IdentityOf(u) == id && Separable(u);
    }
  }

  /** The port is free text in the trigger metadata; with a separator in it two different
      endpoints do share an entry. */
  lemma PortSeparatorCollides()
    ensures var owner := NamespacedName("ns", "model");
            var a := Target(owner, ScrapeConfig("http", "80|a", "b", 3), MODELPOD);
            var b := Target(owner, ScrapeConfig("http", "80", "a|b", 3), MODELPOD);
            EntryKey(a) == EntryKey(b) && IdentityOf(a) != IdentityOf(b)
  {
    MovedSeparator("ns/model|http", "80", "a", "b");
    assert |"80|a"| != |"80"| && "80" + "|" + "a" == "80|a" && "a" + "|" + "b" == "a|b";
    assert "ns" + "/" + "model" + "|" + "http" == "ns/model|http";
  }

  lemma MovedSeparator(head: string, port: string, x: string, y: string)
    ensures head + "|" + (port + "|" + x) + "|" + y == head + "|" + port + "|" + (x + "|" + y)
  {
  }
}
