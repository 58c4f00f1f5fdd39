/** Collision-free entry names for an export bundle. */
module EntryNames {
  import opened Octets
  import opened Results
  import opened Decimals
  import opened ZipWriters

  type Name = seq<byte>

  const DOT: byte := 0x2e
  const DASH: byte := 0x2d
  const FIRST_SUFFIX: nat := 2
  const SUFFIX_LIMIT: nat := 10_000

  /** `rfind('.')`, ignoring a dot in first place; the length of the name when there is none. */
  function StemEnd(name: Name, from: nat): (k: nat)
    requires from <= |name|
    ensures k == |name| || 0 < k < from
    ensures k < |name| ==> name[k] == '.' as int && forall j :: k < j < from ==> name[j] != '.' as int
    ensures k == |name| ==> forall j :: 0 < j < from ==> name[j] != '.' as int
  {
    if from <= 1 then |name| else if name[from - 1] == DOT then from - 1 else StemEnd(name, from - 1)
  }

  /** The names tried in turn: the name itself, then `stem-2.ext`, `stem-3.ext` and so on. */
  function Candidate(name: Name, i: nat): Name {
    if i < FIRST_SUFFIX then name
    else var k := StemEnd(name, |name|); name[..k] + [DASH] + Decimal(i) + name[k..]
  }

  /** A suffixed name is cut at its last dot, unless that is its first character, and keeps its extension. */
  lemma CandidateForm(stem: Name, ext: Name, i: nat)
    requires stem != [] && i >= 2
    requires ext == [] || (ext[0] == '.' as int && '.' as int !in ext[1..])
    requires ext == [] ==> '.' as int !in stem[1..]
    ensures Candidate(stem + ext, 1) == stem + ext
    ensures Candidate(stem + ext, i) == stem + ['-' as int] + Decimal(i) + ext
  {
    var name := stem + ext;
    var k := StemEnd(name, |name|);
    assert ext != [] ==> forall j :: |stem| < j < |name| ==> name[j] == ext[1..][j - |stem| - 1];
    assert ext == [] ==> forall j :: 0 < j < |name| ==> name[j] == stem[1..][j - 1];
    if ext != [] {
      assert name[|stem|] == ext[0];
    }
    assert k == |stem|;
    assert name[..k] == stem && name[k..] == ext;
  }

  lemma CandidateInjective(name: Name, i: nat, j: nat)
    requires 1 <= i < j
    ensures Candidate(name, i) != Candidate(name, j)
  {
    var k := StemEnd(name, |name|);
    var cj := Candidate(name, j);
    assert |cj| == |name| + 1 + |Decimal(j)|;
    if i >= 2 && Candidate(name, i) == cj {
      var ci := Candidate(name, i);
      assert ci[k + 1..|ci| - (|name| - k)] == Decimal(i);
      assert cj[k + 1..|cj| - (|name| - k)] == Decimal(j);
      DecimalInjective(i, j);
    }
  }

  /** Filling the first `n` candidates takes `n` different names. */
  lemma {:induction false} CandidatesNeedRoom(name: Name, n: nat, used: set<Name>) returns (taken: set<Name>)
    requires forall i :: 1 <= i <= n ==> Candidate(name, i) in used
    ensures taken <= used && |taken| == n
    ensures forall x :: x in taken ==> exists i :: 1 <= i <= n && x == Candidate(name, i)
    decreases n
  {
    if n == 0 {
      taken := {};
    } else {
      taken := CandidatesNeedRoom(name, n - 1, used);
      var c := Candidate(name, n);
      forall i | 1 <= i < n
        ensures Candidate(name, i) != c
      {
        CandidateInjective(name, i, n);
      }
      assert c !in taken;
      taken := taken + {c};
    }
  }

  /** The first candidate, from the `i`-th on, that is not in use. */
  function FirstFree(name: Name, used: set<Name>, i: nat): Option<Name>
    decreases SUFFIX_LIMIT - i
  {
    if i >= SUFFIX_LIMIT then None
    else if Candidate(name, i) !in used then Some(Candidate(name, i))
    else FirstFree(name, used, i + 1)
  }

  lemma {:induction false} FirstFreeSkips(name: Name, used: set<Name>, i: nat, j: nat)
    requires i <= j <= SUFFIX_LIMIT && forall m :: i <= m < j ==> Candidate(name, m) in used
    ensures FirstFree(name, used, i) == FirstFree(name, used, j)
    decreases j - i
  {
    hide Candidate;
    if i < j {
      FirstFreeSkips(name, used, i + 1, j);
    }
  }

  lemma FirstFreeIs(name: Name, used: set<Name>, j: nat)
    requires 1 <= j <= SUFFIX_LIMIT && forall m :: 1 <= m < j ==> Candidate(name, m) in used
    requires j < SUFFIX_LIMIT ==> Candidate(name, j) !in used
    ensures FirstFree(name, used, 1) == if j < SUFFIX_LIMIT then Some(Candidate(name, j)) else None
  {
    hide Candidate;
    FirstFreeSkips(name, used, 1, j);
  }

  lemma {:induction false} FirstFreeMeans(name: Name, used: set<Name>, i: nat)
    ensures var r := FirstFree(name, used, i); r.Some? ==>
      r.value !in used && exists j :: i <= j < SUFFIX_LIMIT && r.value == Candidate(name, j)
    decreases SUFFIX_LIMIT - i
  {
    hide Candidate;
    if i < SUFFIX_LIMIT && Candidate(name, i) in used {
      FirstFreeMeans(name, used, i + 1);
    }
  }

  /** The names in use are the names handed out, each once. */
  ghost predicate InUse(used: set<Name>, issued: seq<Name>) {
    Distinct(issued) && |used| == |issued| && used == set n | n in issued
  }

  lemma IssueOne(used: set<Name>, issued: seq<Name>, name: Name)
    requires InUse(used, issued) && name !in used
    ensures InUse(used + {name}, issued + [name])
  {
    assert forall i :: 0 <= i < |issued| ==> issued[i] in used;
  }

  /** The `used` set of one bundle, with the names handed out so far. */
  class NameSet {
    var used: set<Name>
    ghost var issued: seq<Name>

    ghost predicate Valid()
      reads this
    {
      InUse(used, issued)
    }

    constructor ()
      ensures Valid() && used == {} && issued == []
    {
      used, issued := {}, [];
    }

    /** `unique_zip_entry_name`. */
    method Unique(name: Name) returns (r: Result<Name, ()>)
      requires Valid()
      modifies this
      ensures Valid()
      ensures r.Err? <==> forall i :: 1 <= i < 10_000 ==> Candidate(Normalize(name), i) in old(used)
      ensures r.Err? ==> |old(used)| >= 9_999 && used == old(used) && issued == old(issued)
      ensures r.Ok? ==> r.value !in old(used) && used == old(used) + {r.value} && issued == old(issued) + [r.value]
      ensures r.Ok? ==> exists i :: 1 <= i < SUFFIX_LIMIT && r.value == Candidate(Normalize(name), i)
                          && forall j :: 1 <= j < i ==> Candidate(Normalize(name), j) in old(used)
      ensures FirstFree(Normalize(name), old(used), 1) == if r.Ok? then Some(r.value) else None
    {
      hide FirstFree, InUse;
      var normalized := Normalize(name);
      assert Candidate(normalized, 1) == normalized;
      if normalized !in used {
        FirstFreeIs(normalized, used, 1);
        IssueOne(used, issued, normalized);
        used, issued := used + {normalized}, issued + [normalized];
        return Ok(normalized);
      }
      var k := StemEnd(normalized, |normalized|);
      var stem, ext := normalized[..k], normalized[k..];
      for index := FIRST_SUFFIX to SUFFIX_LIMIT
        invariant used == old(used) && issued == old(issued)
        invariant forall j :: 1 <= j < index ==> Candidate(normalized, j) in used
      {
        var candidate := stem + [DASH] + Decimal(index) + ext;
        assert candidate == Candidate(normalized, index);
        if candidate !in used {
          FirstFreeIs(normalized, used, index);
          IssueOne(used, issued, candidate);
          used, issued := used + {candidate}, issued + [candidate];
          return Ok(candidate);
        }
      }
      ghost var taken := CandidatesNeedRoom(normalized, SUFFIX_LIMIT - 1, used);
      SubsetSize(taken, used);
      FirstFreeIs(normalized, used, SUFFIX_LIMIT);
      return Err(());
    }
  }
}
