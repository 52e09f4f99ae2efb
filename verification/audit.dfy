/** The post-run registry audit of tasks/migrations/augmented-mainnet.ts
    (lines 95-117): the figures `printContracts` reports, the warnings they
    raise, and whether the audit escalates them into a failure. */
module RegistryAudit {

  /** What `printContracts` returns: the names of the registry's entries in
      iteration order (the keys of `entryMap`, so `entryMap.size` is their
      number), the number of known contract instances, and the number of
      contracts deployed more than once. */
  datatype Figures = Figures(entryNames: seq<string>, instanceCount: nat, multiCount: nat)

  /** One printed warning. */
  datatype Warning =
    | MultiDeployed
    | UnknownContracts
    | MockContract(name: string)

  /** `key.startsWith('Mock')`: the name is "Mock" followed by anything. */
  predicate IsMockName(name: string)
    ensures IsMockName(name) <==> exists rest :: name == "Mock" + rest
  {
    assert |name| >= 4 ==> name == name[..4] + name[4..];
    |name| >= 4 && name[..4] == "Mock"
  }

  /** The audit's finding as one formula: some contract is deployed more than
      once, the entry count differs from the instance count, or some entry
      name starts with "Mock". */
  predicate HasWarn(a: Figures)
  {
    || a.multiCount > 0
    || |a.entryNames| != a.instanceCount
    || exists i :: 0 <= i < |a.entryNames| && IsMockName(a.entryNames[i])
  }

  /** One warning per mock-named entry, in iteration order. */
  function MockWarnings(names: seq<string>): (r: seq<Warning>)
    ensures |r| <= |names|
  {
    if |names| == 0 then []
    else
      var last := names[|names| - 1];
      MockWarnings(names[..|names| - 1]) + (if IsMockName(last) then [MockContract(last)] else [])
  }

  /** MockWarnings names each mock-named entry and nothing else. */
  lemma {:induction false} MockWarningsContents(names: seq<string>)
    ensures forall w :: w in MockWarnings(names) <==> w.MockContract? && w.name in names && IsMockName(w.name)
  {
    if |names| > 0 {
      var init := names[..|names| - 1];
      MockWarningsContents(init);
      assert names == init + [names[|names| - 1]];
    }
  }

  /** Some mock warning is printed exactly when some entry name is mock-named. */
  lemma MockWarningsNonEmpty(names: seq<string>)
    ensures |MockWarnings(names)| > 0 <==> exists i :: 0 <= i < |names| && IsMockName(names[i])
  {
    MockWarningsContents(names);
    if i :| 0 <= i < |names| && IsMockName(names[i]) {
      assert MockContract(names[i]) in MockWarnings(names);
    }
    if |MockWarnings(names)| > 0 {
      var w := MockWarnings(names)[0];
      assert w in MockWarnings(names);
      var i :| 0 <= i < |names| && names[i] == w.name;
    }
  }

  /** The count check of lines 99-105: the unknown-contract message is only
      printed when there is no multi-deployment message. */
  function CountWarnings(a: Figures): (r: seq<Warning>)
    ensures |r| <= 1
    ensures MultiDeployed in r <==> a.multiCount > 0
    ensures UnknownContracts in r <==> a.multiCount == 0 && |a.entryNames| != a.instanceCount
    ensures |r| == 1 <==> a.multiCount > 0 || |a.entryNames| != a.instanceCount
  {
    if a.multiCount > 0 then [MultiDeployed]
    else if |a.entryNames| != a.instanceCount then [UnknownContracts]
    else []
  }

  /** Every warning the audit prints, in the order it prints them. The
      `else if` decides which count message appears, but a warning is printed
      exactly when HasWarn holds. */
  function Warnings(a: Figures): seq<Warning>
  {
    CountWarnings(a) + MockWarnings(a.entryNames)
  }

  /** The warnings printed: at least one exactly when HasWarn holds, the
      multi-deployment message exactly when some contract was deployed more
      than once, the unknown-contract message exactly when the counts differ
      and there is no multi-deployment, and one message per mock-named entry. */
  lemma WarningsMeaning(a: Figures)
    ensures |Warnings(a)| > 0 <==> HasWarn(a)
    ensures MultiDeployed in Warnings(a) <==> a.multiCount > 0
    ensures UnknownContracts in Warnings(a) <==> a.multiCount == 0 && |a.entryNames| != a.instanceCount
    ensures forall name :: MockContract(name) in Warnings(a) <==> name in a.entryNames && IsMockName(name)
  {
    MockWarningsContents(a.entryNames);
    MockWarningsNonEmpty(a.entryNames);
  }

  /** The flag-setting code of lines 98-112: hasWarn starts false and is set
      by the count check and then by each mock-named entry. */
  method ScanRegistry(a: Figures) returns (hasWarn: bool, printed: seq<Warning>)
    ensures hasWarn == HasWarn(a)
    ensures printed == Warnings(a)
  {
    hasWarn := false;
    printed := [];
    if a.multiCount > 0 {
      printed := [MultiDeployed];
      hasWarn := true;
    } else if |a.entryNames| != a.instanceCount {
      printed := [UnknownContracts];
      hasWarn := true;
    }
    var i := 0;
    while i < |a.entryNames|
      invariant 0 <= i <= |a.entryNames|
      invariant printed == CountWarnings(a) + MockWarnings(a.entryNames[..i])
      invariant hasWarn <==> |printed| > 0
    {
      var key := a.entryNames[i];
      ghost var seen := a.entryNames[..i + 1];
      assert seen[..i] == a.entryNames[..i] && seen[i] == key;

      if IsMockName(key) {
        printed := printed + [MockContract(key)];
        hasWarn := true;
      }
      i := i + 1;
    }
    assert a.entryNames[..i] == a.entryNames;
    WarningsMeaning(a);
  }

  /** Lines 114-116: the audit throws exactly when it found something and the
      run is strict. */
  predicate AuditThrows(strict: bool, a: Figures)
  {
    HasWarn(a) && strict
  }
}
