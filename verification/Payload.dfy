/** The resolved payload of a bundle, and the fingerprint of its contents. */
module Payload {
  import opened Prelude
  import Lines

  type Bytes = seq<bv8>

  datatype Artifact = Artifact(kind: string, key: string, url: string, contentHash: Option<string>,
                               sizeBytes: Option<nat>)

  /** What identifies an artifact: an absent hash and an empty one are the same. */
  datatype Identity = Identity(kind: string, key: string, hash: string)

  function IdentityOf(a: Artifact): Identity {
    Identity(a.kind, a.key, if a.contentHash.Some? then a.contentHash.value else "")
  }

  function Line(id: Identity): string {
    id.kind + "\t" + id.key + "\t" + id.hash
  }

  function Identities(artifacts: seq<Artifact>): seq<Identity> {
    seq(|artifacts|, i requires 0 <= i < |artifacts| => IdentityOf(artifacts[i]))
  }

  function LinesOf(ids: seq<Identity>): seq<string> {
    seq(|ids|, i requires 0 <= i < |ids| => Line(ids[i]))
  }

  /** The text that is hashed. */
  function Material(artifacts: seq<Artifact>): string {
    Lines.Join(LinesOf(Identities(artifacts)), '\n')
  }

  function Fingerprint(digest: string -> string, artifacts: seq<Artifact>): string {
    digest(Material(artifacts))
  }

  /** No separator inside a field; a tab in the hash, the last field of a line, does no harm. */
  predicate Plain(id: Identity) {
    '\t' !in id.kind && '\n' !in id.kind && '\t' !in id.key && '\n' !in id.key && '\n' !in id.hash
  }

  ghost predicate Injective<T(!new)>(f: T -> string) {
    forall x, y :: f(x) == f(y) ==> x == y
  }

  lemma LineDecodes(x: Identity, y: Identity)
    requires Plain(x) && Plain(y) && Line(x) == Line(y)
    ensures x == y
  {
    assert Line(x) == x.kind + "\t" + (x.key + "\t" + x.hash);
    assert Line(y) == y.kind + "\t" + (y.key + "\t" + y.hash);
    FirstField(x.kind, x.key + "\t" + x.hash, y.kind, y.key + "\t" + y.hash);
    FirstField(x.key, x.hash, y.key, y.hash);
  }

  /** Text up to the first tab, and after it. */
  lemma FirstField(a: string, b: string, c: string, d: string)
    requires '\t' !in a && '\t' !in c && a + "\t" + b == c + "\t" + d
    ensures a == c && b == d
  {
    var s := a + "\t" + b;
    Lines.SplitOne(a, '\t');
    Lines.SplitOne(c, '\t');
    Lines.SplitAtSeparator(a, b, '\t');
    Lines.SplitAtSeparator(c, d, '\t');
    assert a + "\t" + b == a + ['\t'] + b && c + "\t" + d == c + ['\t'] + d;
    assert Lines.Split(s, '\t')[0] == a && Lines.Split(s, '\t')[0] == c;
    assert b == s[|a| + 1..] && d == (c + "\t" + d)[|c| + 1..];
  }

  lemma LinePlain(id: Identity)
    requires Plain(id)
    ensures '\n' !in Line(id) && Line(id) != ""
  {
  }

  /** The hashed text determines the ordered list of identities. */
  lemma MaterialDecodes(a: seq<Identity>, b: seq<Identity>)
    requires (forall id :: id in a ==> Plain(id)) && (forall id :: id in b ==> Plain(id))
    requires Lines.Join(LinesOf(a), '\n') == Lines.Join(LinesOf(b), '\n')
    ensures a == b
  {
    JoinNonEmpty(a);
    JoinNonEmpty(b);
    if a != [] {
      forall l | l in LinesOf(a) + LinesOf(b) ensures '\n' !in l {
        var i :| 0 <= i < |LinesOf(a) + LinesOf(b)| && (LinesOf(a) + LinesOf(b))[i] == l;
        LinePlain(if i < |a| then a[i] else b[i - |a|]);
      }
      Lines.SplitJoin(LinesOf(a), '\n');
      Lines.SplitJoin(LinesOf(b), '\n');
      forall i | 0 <= i < |a| ensures a[i] == b[i] {
        assert LinesOf(a)[i] == LinesOf(b)[i];
        LineDecodes(a[i], b[i]);
      }
    }
  }

  lemma JoinNonEmpty(a: seq<Identity>)
    requires forall id :: id in a ==> Plain(id)
    ensures a == [] <==> Lines.Join(LinesOf(a), '\n') == ""
  {
    if a != [] {
      LinePlain(a[0]);
    }
  }

  /** An absent hash counts as an empty one. */
  function HashText(a: Artifact): string {
    match a.contentHash case Some(hash) => hash case None => ""
  }

  /** The hashed text: a line for each artifact in order, with its kind, key and hash between tabs. */
  lemma MaterialExact(p: seq<Artifact>, a: Artifact)
    ensures Material([]) == ""
    ensures var line := a.kind + "\t" + a.key + "\t" + HashText(a);
      Material(p + [a]) == if p == [] then line else Material(p) + "\n" + line
  {
    assert LinesOf(Identities(p + [a])) == LinesOf(Identities(p)) + [Line(IdentityOf(a))];
    JoinLast(LinesOf(Identities(p)), Line(IdentityOf(a)), '\n');
  }

  lemma {:induction false} JoinLast(parts: seq<string>, last: string, sep: char)
    ensures Lines.Join(parts + [last], sep) == if parts == [] then last else Lines.Join(parts, sep) + [sep] + last
  {
    if parts == [] {
      assert [] + [last] == [last];
    } else {
      JoinLast(parts[1..], last, sep);
      assert (parts + [last])[1..] == parts[1..] + [last];
    }
  }

  /** With an injective digest, two payloads share a fingerprint exactly when their ordered lists of
      kind, key and hash agree, whatever their URLs and sizes. */
  lemma FingerprintIdentifies(digest: string -> string, p: seq<Artifact>, q: seq<Artifact>)
    requires Injective(digest)
    requires forall a :: a in p + q ==> Plain(IdentityOf(a))
    ensures Fingerprint(digest, p) == Fingerprint(digest, q) <==> Identities(p) == Identities(q)
    ensures Fingerprint(digest, p) == Fingerprint(digest, q) <==>
      && |p| == |q|
      && forall i :: 0 <= i < |p| ==>
           p[i].kind == q[i].kind && p[i].key == q[i].key && HashText(p[i]) == HashText(q[i])
  {
    assert |p| == |q| ==> forall i :: 0 <= i < |p| ==>
      (Identities(p)[i] == Identities(q)[i] <==>
        p[i].kind == q[i].kind && p[i].key == q[i].key && HashText(p[i]) == HashText(q[i]));
    forall id | id in Identities(p) + Identities(q) ensures Plain(id) {
      var i :| 0 <= i < |p| + |q| && (Identities(p) + Identities(q))[i] == id;
      assert (p + q)[i] in p + q;
    }
    if Fingerprint(digest, p) == Fingerprint(digest, q) {
      MaterialDecodes(Identities(p), Identities(q));
    }
  }

  /** Without that they collide, and always: wherever a key holds a tab, moving what follows the tab
      in front of the hash gives another list with the same hashed text. */
  lemma TabsCollide(p: seq<Artifact>, j: nat, i: nat)
    requires j < |p| && i < |p[j].key| && p[j].key[i] == '\t'
    ensures var a := p[j];
      var b := a.(key := a.key[..i], contentHash := Some(a.key[i + 1..] + "\t" + IdentityOf(a).hash));
      Identities(p) != Identities(p[j := b]) && Material(p) == Material(p[j := b])
  {
    var a := p[j];
    var tail := a.key[i + 1..] + "\t" + IdentityOf(a).hash;
    var b := a.(key := a.key[..i], contentHash := Some(tail));
    assert |Identities(p)[j].key| != |Identities(p[j := b])[j].key|;
    assert a.key == a.key[..i] + "\t" + a.key[i + 1..];
    assert Line(IdentityOf(a)) == Line(IdentityOf(b));
    assert LinesOf(Identities(p)) == LinesOf(Identities(p[j := b]));
  }
}
