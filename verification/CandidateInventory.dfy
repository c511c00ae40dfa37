/** Which curated candidates join the scanned ones (build_inventory in
    scripts/build_validation_candidates.py): one per (path, method, class). */
module CandidateInventory {

  datatype Candidate = Candidate(candidateId: string, path: string, verb: string, vulnClass: string)

  datatype Identity = Identity(path: string, verb: string, vulnClass: string)

  function IdentityOf(c: Candidate): Identity {
    Identity(c.path, c.verb, c.vulnClass)
  }

  ghost function Identities(rows: seq<Candidate>): set<Identity> {
    set c | c in rows :: IdentityOf(c)
  }

  /** Row "i" of "curated" is the first with its identity, and the scanned rows do not have it. */
  ghost predicate NewIdentity(bank: seq<Candidate>, curated: seq<Candidate>, i: nat)
    requires i < |curated|
  {
    && IdentityOf(curated[i]) !in Identities(bank)
    && forall j :: 0 <= j < i ==> IdentityOf(curated[j]) != IdentityOf(curated[i])
  }

  ghost predicate DistinctIdentities(rows: seq<Candidate>) {
    forall i, j :: 0 <= i < j < |rows| ==> IdentityOf(rows[i]) != IdentityOf(rows[j])
  }

  lemma IdentitiesOfLonger(rows: seq<Candidate>, c: Candidate)
    ensures Identities(rows + [c]) == Identities(rows) + {IdentityOf(c)}
  {
    assert forall x :: x in rows + [c] <==> x in rows || x == c;
  }

  lemma CoveredByRows(bank: seq<Candidate>, added: seq<Candidate>, curated: seq<Candidate>)
    requires Identities(bank) + Identities(added) == Identities(bank) + Identities(curated)
    ensures forall c :: c in curated ==>
              exists r :: r in bank + added && r.path == c.path && r.verb == c.verb && r.vulnClass == c.vulnClass
  {
    forall c | c in curated
      ensures exists r :: r in bank + added && r.path == c.path && r.verb == c.verb && r.vulnClass == c.vulnClass
    {
      assert IdentityOf(c) in Identities(bank) + Identities(added);
      var r :| (r in bank || r in added) && IdentityOf(r) == IdentityOf(c);
      assert r in bank + added;
    }
  }

  lemma RowsDiffer(bank: seq<Candidate>, added: seq<Candidate>)
    requires DistinctIdentities(added) && Identities(bank) !! Identities(added)
    ensures var rows := bank + added;
            forall i, j :: 0 <= i < j < |rows| && |bank| <= j ==>
              rows[i].path != rows[j].path || rows[i].verb != rows[j].verb || rows[i].vulnClass != rows[j].vulnClass
  {
    var rows := bank + added;
    forall i, j | 0 <= i < j < |rows| && |bank| <= j
      ensures IdentityOf(rows[i]) != IdentityOf(rows[j])
    {
      assert rows[j] == added[j - |bank|] && added[j - |bank|] in added;
      assert IdentityOf(rows[j]) in Identities(added);
      if i < |bank| {
        assert rows[i] == bank[i] && bank[i] in bank;
        assert IdentityOf(rows[i]) in Identities(bank);
      } else {
        assert rows[i] == added[i - |bank|];
      }
    }
  }

  /** The scanned rows stay first; every identity offered is covered; the rows added are new ones,
      each the first of its identity, and never collide with each other or the scanned rows. */
  method AppendCurated(bank: seq<Candidate>, curated: seq<Candidate>) returns (rows: seq<Candidate>)
    ensures bank <= rows && Identities(rows) == Identities(bank) + Identities(curated)
    // Every row offered is covered by one of the same path, method and class.
    ensures forall c :: c in curated ==>
              exists r :: r in rows && r.path == c.path && r.verb == c.verb && r.vulnClass == c.vulnClass
    ensures forall c :: c in rows[|bank|..] ==> exists i :: 0 <= i < |curated| && curated[i] == c && NewIdentity(bank, curated, i)
    // An added row differs from every row before it in one of the three.
    ensures forall i, j :: 0 <= i < j < |rows| && |bank| <= j ==>
              rows[i].path != rows[j].path || rows[i].verb != rows[j].verb || rows[i].vulnClass != rows[j].vulnClass
  {
    var existing := set c | c in bank :: IdentityOf(c);
    var added: seq<Candidate> := [];
    assert Identities(curated[..0]) == {};
    for n := 0 to |curated|
      invariant existing == Identities(bank) + Identities(curated[..n]) == Identities(bank) + Identities(added)
      invariant forall c :: c in added ==> exists i :: 0 <= i < n && curated[i] == c && NewIdentity(bank, curated, i)
      invariant DistinctIdentities(added) && Identities(bank) !! Identities(added)
    {
      var row := curated[n];
      assert curated[..n + 1] == curated[..n] + [row];
      IdentitiesOfLonger(curated[..n], row);
      if IdentityOf(row) !in existing {
        assert forall j :: 0 <= j < n ==> curated[j] in curated[..n];
        assert NewIdentity(bank, curated, n);
        IdentitiesOfLonger(added, row);
        assert forall i :: 0 <= i < |added| ==> added[i] in added;
        added := added + [row];
        existing := existing + {IdentityOf(row)};
      }
    }
    assert curated[..|curated|] == curated;
    rows := bank + added;
    assert rows[|bank|..] == added;
    CoveredByRows(bank, added, curated);
    RowsDiffer(bank, added);
  }
}
