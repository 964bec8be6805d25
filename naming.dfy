/** The derivation of a tenant's collection name from its organization name,
    `f"org_{name.lower().replace(' ', '_')}"` (app/services/org_service.py:21
    and app/routers/organization.py:79). Lower-casing is restricted to ASCII. */
module Naming {

  /** The registry collection, `MASTER_COLLECTION`. */
  const MasterCollection: string := "master_organizations"

  /** Every tenant collection name starts with this prefix. */
  const CollectionPrefix: string := "org_"

  predicate IsAsciiUpper(c: char) {
    'A' <= c <= 'Z'
  }

  /** One character of `name.lower().replace(' ', '_')`. */
  function FoldChar(c: char): (d: char)
    ensures !IsAsciiUpper(d) && d != ' '
  {
    if IsAsciiUpper(c) then (c as int + 32) as char
    else if c == ' ' then '_'
    else c
  }

  /** `name.lower().replace(' ', '_')`, character by character. */
  function Fold(s: string): (r: string)
    ensures |r| == |s|
    ensures forall i :: 0 <= i < |s| ==> r[i] == FoldChar(s[i])
  {
    if s == [] then [] else [FoldChar(s[0])] + Fold(s[1..])
  }

  /** The collection that holds the tenant called `name`. */
  function CollectionName(name: string): (c: string)
    ensures |c| == |CollectionPrefix| + |name|
    ensures c[..|CollectionPrefix|] == CollectionPrefix
    ensures forall i :: 0 <= i < |name| ==> c[|CollectionPrefix| + i] == FoldChar(name[i])
    ensures forall i :: 0 <= i < |c| ==> !IsAsciiUpper(c[i]) && c[i] != ' '
  {
    CollectionPrefix + Fold(name)
  }

  /** The name created by the end-to-end flow (tests/test_flow.py:32). */
  lemma TestCorpCollection()
    ensures CollectionName("TestCorp") == "org_testcorp"
  {
    var c := CollectionName("TestCorp");
    assert forall i :: 0 <= i < |c| ==> c[i] == "org_testcorp"[i];
  }

  /** The name the end-to-end flow renames to (tests/test_flow.py:60). */
  lemma NewCorpCollection()
    ensures CollectionName("NewCorp") == "org_newcorp"
  {
    var c := CollectionName("NewCorp");
    assert forall i :: 0 <= i < |c| ==> c[i] == "org_newcorp"[i];
  }

  /** A tenant collection can never be the registry collection itself. */
  lemma CollectionNameNotMaster(name: string)
    ensures CollectionName(name) != MasterCollection
  {
    var c := CollectionName(name);
    assert c[0] == 'o' && MasterCollection[0] == 'm';
  }

  /** Two names share a collection exactly when they have the same length
      and agree character by character after folding. */
  lemma SameCollectionName(a: string, b: string)
    ensures CollectionName(a) == CollectionName(b)
        <==> |a| == |b| && forall i :: 0 <= i < |a| ==> FoldChar(a[i]) == FoldChar(b[i])
  {
    var n := |CollectionPrefix|;
    if CollectionName(a) == CollectionName(b) {
      assert CollectionName(a)[n..] == Fold(a) && CollectionName(b)[n..] == Fold(b);
      forall i | 0 <= i < |a| ensures FoldChar(a[i]) == FoldChar(b[i]) {
        assert Fold(a)[i] == Fold(b)[i];
      }
    }
    if |a| == |b| && forall i :: 0 <= i < |a| ==> FoldChar(a[i]) == FoldChar(b[i]) {
      assert Fold(a) == Fold(b);
    }
  }

  /** Folding is idempotent, so a name and its folded form share a collection. */
  lemma {:induction false} FoldIdempotent(s: string)
    ensures Fold(Fold(s)) == Fold(s)
    ensures CollectionName(Fold(s)) == CollectionName(s)
  {
    forall i | 0 <= i < |s| ensures FoldChar(Fold(s)[i]) == Fold(s)[i] {
      var c := Fold(s)[i];
      assert !IsAsciiUpper(c) && c != ' ';
    }
  }

  /** The derivation is not injective: every name holding an ASCII capital
      or a space shares its collection with a different name. */
  lemma CollectionNameNotInjective(name: string, k: nat)
    requires k < |name| && (IsAsciiUpper(name[k]) || name[k] == ' ')
    ensures Fold(name) != name
    ensures CollectionName(Fold(name)) == CollectionName(name)
  {
    assert Fold(name)[k] != name[k];
    FoldIdempotent(name);
  }

  /** A name with a space collides with its underscored form. */
  lemma SpaceCollision()
    ensures "Test Corp" != "test_corp"
    ensures CollectionName("Test Corp") == CollectionName("test_corp")
  {
    assert "Test Corp"[0] != "test_corp"[0];
    var a, b := "Test Corp", "test_corp";
    assert forall i :: 0 <= i < |a| ==> FoldChar(a[i]) == b[i];
    assert forall i :: 0 <= i < |b| ==> FoldChar(b[i]) == b[i];
    FoldsTo(a, b);
    FoldsTo(b, b);
  }

  /** A capitalised name collides with its lower-case form. */
  lemma CaseCollision()
    ensures "TestCorp" != "testcorp"
    ensures CollectionName("TestCorp") == CollectionName("testcorp")
  {
    assert "TestCorp"[0] != "testcorp"[0];
    var c, d := "TestCorp", "testcorp";
    assert forall i :: 0 <= i < |c| ==> FoldChar(c[i]) == d[i];
    assert forall i :: 0 <= i < |d| ==> FoldChar(d[i]) == d[i];
    FoldsTo(c, d);
    FoldsTo(d, d);
  }

  /** Folding a concrete name, checked one character at a time. */
  lemma FoldsTo(s: string, t: string)
    requires |s| == |t| && forall i :: 0 <= i < |s| ==> FoldChar(s[i]) == t[i]
    ensures Fold(s) == t
  {
  }
}
