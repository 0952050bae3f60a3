/** Player-name disambiguation (findUniqueName in src/game/sharing/import.ts):
    `name`, else `name (1)`, `name (2)`, … — the first that no player has. */
module Names {

  function DigitChar(d: nat): char
    requires d < 10
  {
    "0123456789"[d]
  }

  /** The decimal rendering of `n`, as a template literal `${n}` writes it. */
  function NatToString(n: nat): (s: string)
    ensures |s| >= 1
    decreases n
  {
    if n < 10 then [DigitChar(n)] else NatToString(n / 10) + [DigitChar(n % 10)]
  }

  lemma {:induction false} NatToStringInjective(a: nat, b: nat)
    requires NatToString(a) == NatToString(b)
    ensures a == b
    decreases a
  {
    var sa, sb := NatToString(a), NatToString(b);
    assert sa[|sa| - 1] == DigitChar(a % 10) && sb[|sb| - 1] == DigitChar(b % 10);
    DigitCharInjective(a % 10, b % 10);
    if a >= 10 && b >= 10 {
      assert sa[..|sa| - 1] == NatToString(a / 10);
      assert sb[..|sb| - 1] == NatToString(b / 10);
      NatToStringInjective(a / 10, b / 10);
    }
  }

  lemma DigitCharInjective(x: nat, y: nat)
    requires x < 10 && y < 10 && DigitChar(x) == DigitChar(y)
    ensures x == y
  {
  }

  /** The k-th name tried: the name itself, then `name (k)`. */
  function Candidate(name: string, k: nat): string {
    if k == 0 then name else name + " (" + NatToString(k) + ")"
  }

  lemma CandidateInjective(name: string, a: nat, b: nat)
    requires Candidate(name, a) == Candidate(name, b)
    ensures a == b
  {
    if a != 0 && b != 0 {
      var ca, cb := Candidate(name, a), Candidate(name, b);
      assert ca[|name| + 2 .. |ca| - 1] == NatToString(a);
      assert cb[|name| + 2 .. |cb| - 1] == NatToString(b);
      NatToStringInjective(a, b);
    }
  }

  /** The first k names tried. */
  ghost function Tried(name: string, k: nat): (s: set<string>)
    ensures forall j :: 0 <= j < k ==> Candidate(name, j) in s
  {
    if k == 0 then {} else Tried(name, k - 1) + {Candidate(name, k - 1)}
  }

  lemma {:induction false} TriedSize(name: string, k: nat)
    ensures |Tried(name, k)| == k
    ensures forall s :: s in Tried(name, k) ==> exists j :: 0 <= j < k && s == Candidate(name, j)
  {
    if k > 0 {
      TriedSize(name, k - 1);
      if Candidate(name, k - 1) in Tried(name, k - 1) {
        var j :| 0 <= j < k - 1 && Candidate(name, k - 1) == Candidate(name, j);
        CandidateInjective(name, k - 1, j);
      }
    }
  }

  /** Pigeonhole: when the first k names tried are all taken, at least k
      names are taken. This bounds the search. */
  lemma TakenBound(names: set<string>, name: string, k: nat)
    requires forall j :: 0 <= j < k ==> Candidate(name, j) in names
    ensures k <= |names|
  {
    TriedSize(name, k);
    SubsetSize(Tried(name, k), names);
  }

  lemma {:induction false} SubsetSize<T>(a: set<T>, b: set<T>)
    requires a <= b
    ensures |a| <= |b|
  {
    if a != {} {
      var x :| x in a;
      SubsetSize(a - {x}, b - {x});
    }
  }

  /** The first name tried from the k-th on that is not taken. */
  function UniqueNameFrom(names: set<string>, name: string, k: nat): (r: string)
    requires forall j :: 0 <= j < k ==> Candidate(name, j) in names
    ensures r !in names
    ensures exists m :: k <= m && r == Candidate(name, m) && forall j :: 0 <= j < m ==> Candidate(name, j) in names
    decreases |names| - k
  {
    if Candidate(name, k) !in names then Candidate(name, k)
    else
      TakenBound(names, name, k + 1);
      UniqueNameFrom(names, name, k + 1)
  }

  /** A taken name moves the search on to the next one. */
  lemma UniqueNameFromTaken(names: set<string>, name: string, k: nat)
    requires forall j :: 0 <= j <= k ==> Candidate(name, j) in names
    ensures UniqueNameFrom(names, name, k) == UniqueNameFrom(names, name, k + 1)
  {
  }

  /** findUniqueName against the set of names the game's players have. */
  function UniqueName(names: set<string>, name: string): (r: string)
    ensures r !in names
    ensures name !in names ==> r == name
    ensures name in names ==>
              exists k: nat :: 1 <= k && r == Candidate(name, k)
                && forall j :: 1 <= j < k ==> Candidate(name, j) in names
  {
    UniqueNameFrom(names, name, 0)
  }

  /** Importing "Alice" next to "Alice" gives "Alice (1)". */
  lemma AliceOnce()
    ensures UniqueName({"Alice"}, "Alice") == "Alice (1)"
  {
    var names := {"Alice"};
    assert NatToString(1) == "1";
    assert Candidate("Alice", 1) == "Alice (1)";
    assert |"Alice (1)"| != |"Alice"|;
    assert UniqueNameFrom(names, "Alice", 1) == "Alice (1)";
  }

  /** With "Alice (1)" taken as well, the next one is "Alice (2)". */
  lemma AliceTwice()
    ensures UniqueName({"Alice", "Alice (1)"}, "Alice") == "Alice (2)"
  {
    var names := {"Alice", "Alice (1)"};
    assert Candidate("Alice", 1) == "Alice (1)" by {
      assert NatToString(1) == "1";
    }
    assert Candidate("Alice", 2) == "Alice (2)" by {
      assert NatToString(2) == "2";
    }
    assert "Alice (2)" !in names by {
      assert "Alice (2)"[7] != "Alice (1)"[7];
      assert |"Alice (2)"| != |"Alice"|;
    }
    var third := UniqueNameFrom(names, "Alice", 2);
    assert third == "Alice (2)";
    assert UniqueNameFrom(names, "Alice", 1) == third;
  }
}
