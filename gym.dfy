/**
 * The gym's in-memory member directory: an ordered list of members that can
 * be appended to, filtered by membership type, sorted by name in place and
 * searched by name.
 */
module Gym {
  import opened Wrappers
  import opened Text
  import opened Lists

  /** A gym member: identifier, name and free-form membership category. */
  datatype Member = Member(id: string, name: string, membershipType: string)

  /** The filter condition: the member's type equals `queryType` ignoring case. */
  function HasType(m: Member, queryType: string): (r: bool)
    ensures m.membershipType == queryType ==> r
  {
    EqualsIgnoreCase(m.membershipType, queryType)
  }

  /** The search condition: the member's name equals `searchName` ignoring case. */
  function HasName(m: Member, searchName: string): (r: bool)
    ensures m.name == searchName ==> r
  {
    EqualsIgnoreCase(m.name, searchName)
  }

  /** The lambda passed to `filter`. */
  function TypeMatcher(queryType: string): (matcher: Member -> bool)
  {
    (m: Member) => HasType(m, queryType)
  }

  /** The lambda passed to `find`. */
  function NameMatcher(searchName: string): (matcher: Member -> bool)
  {
    (m: Member) => HasName(m, searchName)
  }

  /**
   * `sortBy { it.name }` lets `a` stay before `b` when `a.name.compareTo(b.name) <= 0`.
   * Equal names may stay in either order, and of two members one may always precede the other.
   */
  function NameLe(a: Member, b: Member): (r: bool)
    ensures a.name == b.name ==> r
    ensures !r ==> CompareTo(b.name, a.name) < 0
  {
    CompareToAntisymmetric(a.name, b.name);
    CompareTo(a.name, b.name) <= 0
  }

  ghost predicate SortedByName(s: seq<Member>)
  {
    forall i, j :: 0 <= i < j < |s| ==> NameLe(s[i], s[j])
  }

  /** The members carrying exactly the name `name`, in order; a stable sort keeps each such group. */
  ghost function WithName(s: seq<Member>, name: string): seq<Member>
  {
    Filter(s, (m: Member) => m.name == name)
  }

  /** Places `x` before the first member of `s` whose name is not smaller than its own. */
  function InsertByName(x: Member, s: seq<Member>): (r: seq<Member>)
    ensures multiset(r) == multiset{x} + multiset(s)
  {
    if s == [] || NameLe(x, s[0]) then [x] + s
    else
      assert s == [s[0]] + s[1..];
      [s[0]] + InsertByName(x, s[1..])
  }

  /** A stable sort by name: insertion of each member into the sorted rest of the list. */
  function SortByName(s: seq<Member>): (r: seq<Member>)
    ensures SortedByName(r)
    ensures multiset(r) == multiset(s)
  {
    if s == [] then []
    else
      var t := SortByName(s[1..]);
      InsertByNameSorted(s[0], t);
      assert s == [s[0]] + s[1..];
      InsertByName(s[0], t)
  }

  /** A member that may precede every member of a sorted list can be put in front of it. */
  lemma PrependSorted(y: Member, t: seq<Member>)
    requires SortedByName(t)
    requires forall j :: 0 <= j < |t| ==> NameLe(y, t[j])
    ensures SortedByName([y] + t)
  {
    var r := [y] + t;
    forall i, j | 0 <= i < j < |r| ensures NameLe(r[i], r[j]) {
      assert r[j] == t[j - 1];
      if i > 0 {
        assert r[i] == t[i - 1];
      }
    }
  }

  lemma {:induction false} InsertByNameSorted(x: Member, s: seq<Member>)
    requires SortedByName(s)
    ensures SortedByName(InsertByName(x, s))
  {
    if s == [] {
    } else if NameLe(x, s[0]) {
      forall j | 0 <= j < |s| ensures NameLe(x, s[j]) {
        if j > 0 {
          CompareToTransitive(x.name, s[0].name, s[j].name);
        }
      }
      PrependSorted(x, s);
    } else {
      var t := InsertByName(x, s[1..]);
      InsertByNameSorted(x, s[1..]);
      forall j | 0 <= j < |t| ensures NameLe(s[0], t[j]) {
        assert t[j] in multiset(t);
        if t[j] != x {
          assert t[j] in s[1..];
        }
      }
      PrependSorted(s[0], t);
    }
  }

  /** Inserting `x` keeps its place relative to the members that share its name. */
  lemma {:induction false} InsertByNameKeepsGroups(x: Member, s: seq<Member>, name: string)
    ensures WithName(InsertByName(x, s), name) == WithName([x] + s, name)
  {
    if s != [] && !NameLe(x, s[0]) {
      CompareToSelf(x.name);
      assert x.name != s[0].name;
      InsertByNameKeepsGroups(x, s[1..], name);
      var p := (m: Member) => m.name == name;
      var t := InsertByName(x, s[1..]);
      FilterConcat([s[0]], t, p);
      FilterConcat([x], s, p);
      FilterConcat([x], s[1..], p);
      FilterConcat([s[0]], s[1..], p);
      assert s == [s[0]] + s[1..];
    }
  }

  /** Sorting is stable: every group of equally named members keeps its order. */
  lemma {:induction false} SortByNameKeepsGroups(s: seq<Member>, name: string)
    ensures WithName(SortByName(s), name) == WithName(s, name)
  {
    if s != [] {
      var p := (m: Member) => m.name == name;
      var t := SortByName(s[1..]);
      SortByNameKeepsGroups(s[1..], name);
      InsertByNameKeepsGroups(s[0], t, name);
      FilterConcat([s[0]], t, p);
      FilterConcat([s[0]], s[1..], p);
      assert s == [s[0]] + s[1..];
    }
  }

  /** A member of `s` whose name is `name` occurs in the group `WithName(s, name)`. */
  lemma InGroup(s: seq<Member>, m: Member)
    requires m in s
    ensures m in WithName(s, m.name)
  {
    FilterCount(s, (x: Member) => x.name == m.name, m);
    assert m in multiset(s);
  }

  /** Conversely, every member of a group is a member of the list. */
  lemma GroupInList(s: seq<Member>, name: string, m: Member)
    requires m in WithName(s, name)
    ensures m in s
  {
    FilterCount(s, (x: Member) => x.name == name, m);
    assert m in multiset(WithName(s, name));
  }

  /** Two name-sorted lists with the same name groups are the same list. */
  lemma {:induction false} SortedSameGroupsEqual(t: seq<Member>, u: seq<Member>)
    requires SortedByName(t) && SortedByName(u)
    requires forall name :: WithName(t, name) == WithName(u, name)
    ensures t == u
    decreases |t| + |u|
  {
    if t == [] || u == [] {
      if u != [] {
        InGroup(u, u[0]);
      }
      if t != [] {
        InGroup(t, t[0]);
      }
    } else {
      var a, b := t[0], u[0];
      InGroup(t, a);
      GroupInList(u, a.name, a);
      InGroup(u, b);
      GroupInList(t, b.name, b);
      CompareToSelf(a.name);
      CompareToSelf(b.name);
      assert NameLe(b, a) by {
        var i :| 0 <= i < |u| && u[i] == a;
        assert i == 0 || NameLe(u[0], u[i]);
      }
      assert NameLe(a, b) by {
        var i :| 0 <= i < |t| && t[i] == b;
        assert i == 0 || NameLe(t[0], t[i]);
      }
      CompareToAntisymmetric(a.name, b.name);
      assert t == [a] + t[1..] && u == [b] + u[1..];
      assert a == b by {
        var p := (m: Member) => m.name == a.name;
        FilterConcat([a], t[1..], p);
        FilterConcat([b], u[1..], p);
        assert WithName(t, a.name)[0] == a;
      }
      forall name ensures WithName(t[1..], name) == WithName(u[1..], name) {
        var p := (m: Member) => m.name == name;
        FilterConcat([a], t[1..], p);
        FilterConcat([b], u[1..], p);
        var pre := Filter([a], p);
        assert WithName(t, name) == pre + WithName(t[1..], name);
        assert WithName(u, name) == pre + WithName(u[1..], name);
        assert WithName(t[1..], name) == WithName(t, name)[|pre|..];
        assert WithName(u[1..], name) == WithName(u, name)[|pre|..];
      }
      SortedSameGroupsEqual(t[1..], u[1..]);
    }
  }

  /**
   * Any name-sorted arrangement of `s` that keeps every name group in order
   * is `SortByName(s)`: a stable sort has exactly one possible result.
   */
  lemma StableSortIsUnique(s: seq<Member>, t: seq<Member>)
    requires SortedByName(t)
    requires forall name :: WithName(t, name) == WithName(s, name)
    ensures t == SortByName(s)
  {
    forall name ensures WithName(t, name) == WithName(SortByName(s), name) {
      SortByNameKeepsGroups(s, name);
    }
    SortedSameGroupsEqual(t, SortByName(s));
  }

  /** Sorting twice gives the list that sorting once gives. */
  lemma SortByNameIdempotent(s: seq<Member>)
    ensures SortByName(SortByName(s)) == SortByName(s)
  {
    StableSortIsUnique(SortByName(s), SortByName(s));
  }

  /** The directory: a mutable, ordered list of members with no de-duplication. */
  class GymManagementSystem {
    var members: seq<Member>

    constructor ()
      ensures members == []
    {
      members := [];
    }

    /** Appends `member` at the end; an existing equal member is not rejected. */
    method AddMember(member: Member)
      modifies this
      ensures members == old(members) + [member]
      ensures |members| == |old(members)| + 1
      ensures members[..|old(members)|] == old(members) && members[|old(members)|] == member
    {
      members := members + [member];
    }

    /** The members whose type equals `queryType` ignoring case, in directory order. */
    function FilterMembersByType(queryType: string): (r: seq<Member>)
      reads this
      ensures forall i :: 0 <= i < |r| ==> HasType(r[i], queryType)
      ensures IsSubsequence(r, members)
      ensures forall m :: multiset(r)[m] == if HasType(m, queryType) then multiset(members)[m] else 0
      ensures r == [] <==> forall i :: 0 <= i < |members| ==> !HasType(members[i], queryType)
    {
      var p := TypeMatcher(queryType);
      FilterIsSubsequence(members, p);
      forall m ensures multiset(Filter(members, p))[m] == if HasType(m, queryType) then multiset(members)[m] else 0 {
        FilterCount(members, p, m);
      }
      Filter(members, p)
    }

    /**
     * Reorders the directory by name, ordinally and stably: the result is
     * sorted, a permutation of the previous list, and keeps equally named
     * members in their previous relative order.
     */
    method SortMembersByName()
      modifies this
      ensures SortedByName(members)
      ensures multiset(members) == multiset(old(members))
      ensures forall name :: WithName(members, name) == WithName(old(members), name)
      ensures members == SortByName(old(members))
    {
      forall name ensures WithName(SortByName(members), name) == WithName(members, name) {
        SortByNameKeepsGroups(members, name);
      }
      members := SortByName(members);
    }

    /** The first member, in directory order, whose name equals `searchName` ignoring case. */
    function FindMemberByName(searchName: string): (r: Option<Member>)
      reads this
      ensures r.None? <==> forall i :: 0 <= i < |members| ==> !HasName(members[i], searchName)
      ensures r.Some? ==> r.value in members && HasName(r.value, searchName)
      ensures forall k ::
        (0 <= k < |members| && HasName(members[k], searchName) && forall j :: 0 <= j < k ==> !HasName(members[j], searchName))
        ==> r == Some(members[k])
    {
      Find(members, NameMatcher(searchName))
    }
  }

  /** The filter's result does not depend on the case in which the type is asked for. */
  lemma FilterIgnoresQueryCase(sys: GymManagementSystem, a: string, b: string)
    requires EqualsIgnoreCase(a, b)
    ensures sys.FilterMembersByType(a) == sys.FilterMembersByType(b)
  {
    forall i | 0 <= i < |sys.members| ensures HasType(sys.members[i], a) == HasType(sys.members[i], b) {
      EqualsIgnoreCaseIsEquivalence(sys.members[i].membershipType, a, b);
      EqualsIgnoreCaseIsEquivalence(sys.members[i].membershipType, b, a);
    }
    FilterSamePredicate(sys.members, TypeMatcher(a), TypeMatcher(b));
  }

  /** The search's result does not depend on the case in which the name is asked for. */
  lemma FindIgnoresQueryCase(sys: GymManagementSystem, a: string, b: string)
    requires EqualsIgnoreCase(a, b)
    ensures sys.FindMemberByName(a) == sys.FindMemberByName(b)
  {
    var p, q := NameMatcher(a), NameMatcher(b);
    forall i | 0 <= i < |sys.members| ensures p(sys.members[i]) == q(sys.members[i]) {
      EqualsIgnoreCaseIsEquivalence(sys.members[i].name, a, b);
      EqualsIgnoreCaseIsEquivalence(sys.members[i].name, b, a);
    }
    FindIsFirstOfFilter(sys.members, p);
    FindIsFirstOfFilter(sys.members, q);
    FilterSamePredicate(sys.members, p, q);
  }

  const JohnDoe := Member("M001", "John Doe", "Premium")
  const JaneSmith := Member("M002", "Jane Smith", "Standard")
  const AliceJohnson := Member("M003", "Alice Johnson", "Premium")

  /** The first part of the demonstration run: the three members are added in order. */
  method DemoPopulate() returns (gym: GymManagementSystem)
    ensures fresh(gym)
    ensures gym.members == [JohnDoe, JaneSmith, AliceJohnson]
  {
    gym := new GymManagementSystem();
    gym.AddMember(JohnDoe);
    gym.AddMember(JaneSmith);
    gym.AddMember(AliceJohnson);
  }

  /**
   * The demonstration run: three members are added, the premium members are
   * listed, the directory is sorted and Jane Smith is looked up.
   */
  method DemoScenario() returns (premium: seq<Member>, sorted: seq<Member>, found: Option<Member>)
    ensures premium == [JohnDoe, AliceJohnson]
    ensures sorted == [AliceJohnson, JaneSmith, JohnDoe]
    ensures found == Some(JaneSmith)
  {
    var gym := DemoPopulate();
    premium := gym.FilterMembersByType("Premium");
    assert premium == [JohnDoe, AliceJohnson] by {
      DemoFilter();
    }
    gym.SortMembersByName();
    sorted := gym.members;
    assert sorted == [AliceJohnson, JaneSmith, JohnDoe] by {
      DemoSort();
    }
    found := gym.FindMemberByName("Jane Smith");
    assert found == Some(JaneSmith) by {
      DemoFind();
    }
  }

  lemma DemoFilter()
    ensures Filter([JohnDoe, JaneSmith, AliceJohnson], TypeMatcher("Premium")) == [JohnDoe, AliceJohnson]
  {
    var p := TypeMatcher("Premium");
    EqualsIgnoreCaseIsEquivalence("Premium", "Premium", "Premium");
    assert p(JohnDoe) && p(AliceJohnson);
    assert !p(JaneSmith) by {
      assert !CharEqualsIgnoreCase(JaneSmith.membershipType[0], "Premium"[0]);
    }
    var s := [JohnDoe, JaneSmith, AliceJohnson];
    assert s[1..] == [JaneSmith, AliceJohnson] && s[1..][1..] == [AliceJohnson] && [AliceJohnson][1..] == [];
    assert Filter([AliceJohnson], p) == [AliceJohnson];
    assert Filter(s[1..], p) == [AliceJohnson];
  }

  lemma DemoNameOrder()
    ensures !NameLe(JaneSmith, AliceJohnson)
    ensures !NameLe(JohnDoe, AliceJohnson)
    ensures !NameLe(JohnDoe, JaneSmith)
  {
  }

  lemma DemoSortTail()
    ensures SortByName([JaneSmith, AliceJohnson]) == [AliceJohnson, JaneSmith]
  {
  }

  lemma DemoInsertJohn()
    ensures InsertByName(JohnDoe, [AliceJohnson, JaneSmith]) == [AliceJohnson, JaneSmith, JohnDoe]
  {
    DemoNameOrder();
    assert [AliceJohnson, JaneSmith][1..] == [JaneSmith] && [JaneSmith][1..] == [];
    assert InsertByName(JohnDoe, []) == [JohnDoe];
    assert InsertByName(JohnDoe, [JaneSmith]) == [JaneSmith, JohnDoe];
  }

  lemma DemoSort()
    ensures SortByName([JohnDoe, JaneSmith, AliceJohnson]) == [AliceJohnson, JaneSmith, JohnDoe]
  {
    var s := [JohnDoe, JaneSmith, AliceJohnson];
    assert s[1..] == [JaneSmith, AliceJohnson];
    DemoSortTail();
    DemoInsertJohn();
  }

  lemma DemoFind()
    ensures Find([AliceJohnson, JaneSmith, JohnDoe], NameMatcher("Jane Smith")) == Some(JaneSmith)
  {
  }
}
