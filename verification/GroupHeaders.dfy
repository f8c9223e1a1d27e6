/** advanced2-contract-dev/task3/foundry-experience/lib/forge-std/scripts/vm.py: the order of
    cheatcodes and the group headers inserted into the list being enumerated. */
module GroupHeaders {
  import opened Prelude

  datatype Function = Function(
    id: string, description: string, declaration: string, visibility: string, mutability: string,
    signature: string, selector: string, selectorBytes: Bytes)

  datatype Cheatcode = Cheatcode(func: Function, group: string, status: string, safety: string)

  // ---------- the order ----------

  /** Python's `<` on strings: by code points, a proper prefix first. */
  predicate Less(a: string, b: string) {
    if b == "" then false
    else if a == "" then true
    else if a[0] != b[0] then a[0] < b[0]
    else Less(a[1..], b[1..])
  }

  lemma {:induction false} LessTotal(a: string, b: string)
    ensures a != b ==> (Less(a, b) <==> !Less(b, a))
    ensures !Less(a, a)
  {
    if a != "" && b != "" {
      LessTotal(a[1..], b[1..]);
      assert a == [a[0]] + a[1..] && b == [b[0]] + b[1..];
    }
    if a != "" {
      LessTotal(a[1..], a[1..]);
    }
  }

  lemma {:induction false} LessTransitive(a: string, b: string, c: string)
    requires Less(a, b) && Less(b, c)
    ensures Less(a, c)
  {
    if a != "" && a[0] == b[0] == c[0] {
      LessTransitive(a[1..], b[1..], c[1..]);
    }
  }

  /** `k` is where `a` falls behind `b`: `a` ends there, or has the smaller letter. */
  ghost predicate FallsAt(a: string, b: string, k: nat) {
    k <= |a| && k < |b| && a[..k] == b[..k] && (k == |a| || a[k] < b[k])
  }

  /** Lexicographic order by its meaning: equal up to some place, then smaller. */
  lemma {:induction false} LessExact(a: string, b: string)
    ensures Less(a, b) <==> exists k :: FallsAt(a, b, k)
  {
    if a != "" && b != "" && a[0] == b[0] {
      LessExact(a[1..], b[1..]);
      if Less(a, b) {
        var k :| FallsAt(a[1..], b[1..], k);
        FallsLater(a, b, k);
      }
      forall k | FallsAt(a, b, k)
        ensures Less(a, b)
      {
        FallsEarlier(a, b, k);
      }
    } else if Less(a, b) {
      assert FallsAt(a, b, 0);
    }
  }

  lemma FallsLater(a: string, b: string, k: nat)
    requires a != "" && b != "" && a[0] == b[0] && FallsAt(a[1..], b[1..], k)
    ensures FallsAt(a, b, k + 1)
  {
    assert a[..k + 1] == [a[0]] + a[1..][..k] && b[..k + 1] == [b[0]] + b[1..][..k];
  }

  lemma FallsEarlier(a: string, b: string, k: nat)
    requires a != "" && b != "" && a[0] == b[0] && FallsAt(a, b, k)
    ensures k > 0 && FallsAt(a[1..], b[1..], k - 1)
  {
    assert a[1..][..k - 1] == a[..k][1..] && b[1..][..k - 1] == b[..k][1..];
  }

  /** What cheatcodes are ordered by, the most important key first. */
  function Keys(c: Cheatcode): seq<string> {
    [c.group, c.status, c.safety, c.func.id]
  }

  /** The first key in which `a` and `b` differ is smaller in `a`. */
  ghost predicate Precedes(a: Cheatcode, b: Cheatcode) {
    exists k :: 0 <= k < 4 && Less(Keys(a)[k], Keys(b)[k]) && Keys(a)[..k] == Keys(b)[..k]
  }

  /** The comparison is negative exactly if the first differing key is smaller, positive exactly
      if it is larger. */
  lemma CompareExact(a: Cheatcode, b: Cheatcode)
    ensures Compare(a, b) < 0 <==> Precedes(a, b)
    ensures Compare(a, b) > 0 <==> Precedes(b, a)
  {
    CompareNegative(a, b);
    CompareNegative(b, a);
    CompareAntisymmetric(a, b);
  }

  /** `cmp_cheatcode`. */
  function Compare(a: Cheatcode, b: Cheatcode): int {
    if a.group != b.group then (if Less(a.group, b.group) then -1 else 1)
    else if a.status != b.status then (if Less(a.status, b.status) then -1 else 1)
    else if a.safety != b.safety then (if Less(a.safety, b.safety) then -1 else 1)
    else if a.func.id != b.func.id then (if Less(a.func.id, b.func.id) then -1 else 1)
    else 0
  }

  /** Comparing the other way round negates the answer, and only equal keys tie. */
  lemma CompareAntisymmetric(a: Cheatcode, b: Cheatcode)
    ensures Compare(a, b) == -Compare(b, a)
    ensures Compare(a, b) == 0 <==>
            a.group == b.group && a.status == b.status && a.safety == b.safety && a.func.id == b.func.id
  {
    LessTotal(a.group, b.group);
    LessTotal(a.status, b.status);
    LessTotal(a.safety, b.safety);
    LessTotal(a.func.id, b.func.id);
  }

  lemma CompareNegative(a: Cheatcode, b: Cheatcode)
    ensures Compare(a, b) < 0 <==> Precedes(a, b)
  {
    LessTotal(a.group, b.group);
    LessTotal(a.status, b.status);
    LessTotal(a.safety, b.safety);
    LessTotal(a.func.id, b.func.id);
    var k := if a.group != b.group then 0 else if a.status != b.status then 1 else if a.safety != b.safety then 2 else 3;
    assert Keys(a)[..k] == Keys(b)[..k];
    if Precedes(a, b) {
      var j :| 0 <= j < 4 && Less(Keys(a)[j], Keys(b)[j]) && Keys(a)[..j] == Keys(b)[..j];
      assert forall i :: 0 <= i < j ==> Keys(a)[i] == Keys(a)[..j][i] == Keys(b)[..j][i] == Keys(b)[i];
      assert j == k;
    }
  }

  lemma LessOrEqualTransitive(a: string, b: string, c: string)
    requires (Less(a, b) || a == b) && (Less(b, c) || b == c)
    ensures Less(a, c) || (a == b == c)
  {
    if Less(a, b) && Less(b, c) {
      LessTransitive(a, b, c);
    }
  }

  /** The comparison is a total preorder, as sorting needs. */
  lemma CompareTransitive(a: Cheatcode, b: Cheatcode, c: Cheatcode)
    requires Compare(a, b) <= 0 && Compare(b, c) <= 0
    ensures Compare(a, c) <= 0
  {
    LessTotal(a.group, c.group);
    LessOrEqualTransitive(a.group, b.group, c.group);
    if a.group == c.group {
      LessOrEqualTransitive(a.status, b.status, c.status);
      if a.status == c.status {
        LessTotal(a.status, a.status);
        LessOrEqualTransitive(a.safety, b.safety, c.safety);
        if a.safety == c.safety {
          LessTotal(a.safety, a.safety);
          LessOrEqualTransitive(a.func.id, b.func.id, c.func.id);
        }
      }
    }
  }

  // ---------- the partition in `main` ----------

  /** `filter(lambda cc: cc.safety == safety, ...)`. */
  function WithSafety(cs: seq<Cheatcode>, safety: string): seq<Cheatcode> {
    if cs == [] then []
    else (if cs[0].safety == safety then [cs[0]] else []) + WithSafety(cs[1..], safety)
  }

  /** The filter keeps exactly the cheatcodes with that safety, as often as they occur. */
  lemma {:induction false} FilterExact(cs: seq<Cheatcode>, safety: string, c: Cheatcode)
    ensures multiset(WithSafety(cs, safety))[c] == if c.safety == safety then multiset(cs)[c] else 0
  {
    if cs != [] {
      FilterExact(cs[1..], safety, c);
      assert cs == [cs[0]] + cs[1..];
    }
  }

  /** It keeps their order: filtering a list is filtering it part by part. */
  lemma {:induction false} FilterParts(a: seq<Cheatcode>, b: seq<Cheatcode>, safety: string)
    ensures WithSafety(a + b, safety) == WithSafety(a, safety) + WithSafety(b, safety)
  {
    if a == [] {
      assert a + b == b;
    } else {
      var c, rest := a[0], a[1..];
      assert a == [c] + rest && a + b == [c] + (rest + b);
      FilterParts(rest, b, safety);
      FilterHead(c, rest, safety);
      FilterHead(c, rest + b, safety);
      Regroup(if c.safety == safety then [c] else [], WithSafety(rest, safety), WithSafety(b, safety));
    }
  }

  lemma FilterHead(c: Cheatcode, rest: seq<Cheatcode>, safety: string)
    ensures WithSafety([c] + rest, safety) == (if c.safety == safety then [c] else []) + WithSafety(rest, safety)
  {
    assert ([c] + rest)[1..] == rest;
  }

  lemma {:induction false} TwoParts(cs: seq<Cheatcode>, x: string, y: string)
    requires x != y
    ensures |WithSafety(cs, x)| + |WithSafety(cs, y)| <= |cs|
    ensures |WithSafety(cs, x)| + |WithSafety(cs, y)| == |cs| <==>
            forall k :: 0 <= k < |cs| ==> cs[k].safety == x || cs[k].safety == y
  {
    if cs != [] {
      TwoParts(cs[1..], x, y);
      assert forall k :: 0 < k < |cs| ==> cs[k] == cs[1..][k - 1];
    }
  }

  lemma HeadSafety(c: Cheatcode, tail: seq<Cheatcode>, x: string)
    ensures multiset(WithSafety([c] + tail, x)) ==
            (if c.safety == x then multiset{c} else multiset{}) + multiset(WithSafety(tail, x))
  {
    assert ([c] + tail)[1..] == tail;
  }

  lemma {:induction false} PartsKeepAll(cs: seq<Cheatcode>, x: string, y: string)
    requires x != y && forall k :: 0 <= k < |cs| ==> cs[k].safety == x || cs[k].safety == y
    ensures multiset(WithSafety(cs, x)) + multiset(WithSafety(cs, y)) == multiset(cs)
  {
    if cs != [] {
      var c, tail := cs[0], cs[1..];
      assert cs == [c] + tail;
      PartsKeepAll(tail, x, y);
      HeadSafety(c, tail, x);
      HeadSafety(c, tail, y);
    }
  }

  /** The assertion that both parts together are as long as the whole passes exactly when
      every cheatcode is marked safe or unsafe, and then no cheatcode is lost. */
  lemma PartitionAssertion(cs: seq<Cheatcode>)
    ensures var safe, unsafe := WithSafety(cs, "safe"), WithSafety(cs, "unsafe");
            && (|safe| + |unsafe| == |cs| <==>
                forall k :: 0 <= k < |cs| ==> cs[k].safety == "safe" || cs[k].safety == "unsafe")
            && (|safe| + |unsafe| == |cs| ==> multiset(safe) + multiset(unsafe) == multiset(cs))
  {
    assert "safe" != "unsafe" by { assert |"safe"| != |"unsafe"|; }
    TwoParts(cs, "safe", "unsafe");
    if |WithSafety(cs, "safe")| + |WithSafety(cs, "unsafe")| == |cs| {
      PartsKeepAll(cs, "safe", "unsafe");
    }
  }

  // ---------- group headers ----------

  ghost predicate KeepsGroup(h: Cheatcode -> Cheatcode) {
    forall c :: h(c).group == c.group
  }

  /** A way of making headers; the lemmas hold for any that leaves the group as it is. */
  type HeaderMaker = h: Cheatcode -> Cheatcode | KeepsGroup(h) witness (c: Cheatcode) => c

  /** The function `group`, Python's `upper` on one character given; on the empty string
      `s[0]` raises, which the loop below models. */
  function Title(upper: char -> string, s: string): string {
    if s == "" then "" else if s == "evm" then "EVM" else if s == "json" then "JSON" else upper(s[0]) + s[1..]
  }

  /** The header made for the first cheatcode of a group: a copy with another declaration. */
  function Header(upper: char -> string, c: Cheatcode): Cheatcode {
    c.(func := c.func.(description := "", declaration := "// ======== " + Title(upper, c.group) + " ========"))
  }

  /** Every letter upper-cased. */
  function Capitals(upper: char -> string, s: string): string {
    if s == "" then "" else upper(s[0]) + Capitals(upper, s[1..])
  }

  lemma CapitalsNext(upper: char -> string, c: char, rest: string)
    ensures Capitals(upper, [c] + rest) == upper(c) + Capitals(upper, rest)
  {
    assert ([c] + rest)[1..] == rest;
  }

  /** `upper` maps the small Latin letters as Python does. */
  ghost predicate UppersLatin(upper: char -> string) {
    forall c :: 'a' <= c <= 'z' ==> upper(c) == [(c as int - 32) as char]
  }

  /** A title is the group with its first letter in upper case, or all letters for the two
      acronyms. */
  lemma TitleText(upper: char -> string, s: string)
    requires s != "" && UppersLatin(upper)
    ensures var n := if s == "evm" || s == "json" then |s| else 1;
            n <= |s| && Title(upper, s) == Capitals(upper, s[..n]) + s[n..]
  {
    if s == "evm" {
      assert s == ['e'] + (['v'] + (['m'] + ""));
      CapitalsNext(upper, 'm', "");
      CapitalsNext(upper, 'v', ['m'] + "");
      CapitalsNext(upper, 'e', ['v'] + (['m'] + ""));
      assert upper('e') == "E" && upper('v') == "V" && upper('m') == "M";
      assert s[..3] == s;
    } else if s == "json" {
      assert s == ['j'] + (['s'] + (['o'] + (['n'] + "")));
      CapitalsNext(upper, 'n', "");
      CapitalsNext(upper, 'o', ['n'] + "");
      CapitalsNext(upper, 's', ['o'] + (['n'] + ""));
      CapitalsNext(upper, 'j', ['s'] + (['o'] + (['n'] + "")));
      assert upper('j') == "J" && upper('s') == "S" && upper('o') == "O" && upper('n') == "N";
      assert s[..4] == s;
    } else {
      assert s[..1][1..] == "";
      assert Capitals(upper, s[..1]) == upper(s[0]);
    }
  }

  /** A header shows the title of its group, has no description and is otherwise a copy. */
  lemma HeaderText(upper: char -> string, c: Cheatcode)
    requires c.group != "" && UppersLatin(upper)
    ensures var n := if c.group == "evm" || c.group == "json" then |c.group| else 1;
            var t := Header(upper, c);
            && n <= |c.group|
            && t.func.declaration == "// ======== " + (Capitals(upper, c.group[..n]) + c.group[n..]) + " ========"
            && t.func.description == ""
            && t.group == c.group && t.status == c.status && t.safety == c.safety
            && t.func.id == c.func.id && t.func.visibility == c.func.visibility
            && t.func.mutability == c.func.mutability && t.func.signature == c.func.signature
            && t.func.selector == c.func.selector && t.func.selectorBytes == c.func.selectorBytes
  {
    TitleText(upper, c.group);
  }

  function HeaderWith(upper: char -> string): HeaderMaker {
    (c: Cheatcode) => Header(upper, c)
  }

  /** The groups that occur. */
  function Groups(cs: seq<Cheatcode>): set<string> {
    if cs == [] then {} else Groups(cs[..|cs| - 1]) + {cs[|cs| - 1].group}
  }

  lemma {:induction false} GroupsExact(cs: seq<Cheatcode>, g: string)
    ensures g in Groups(cs) <==> exists k :: 0 <= k < |cs| && cs[k].group == g
  {
    if cs != [] {
      GroupsExact(cs[..|cs| - 1], g);
    }
  }

  lemma NextGroup(cs: seq<Cheatcode>, p: nat)
    requires p < |cs|
    ensures Groups(cs[..p + 1]) == Groups(cs[..p]) + {cs[p].group}
    ensures cs[p].group in Groups(cs[..p]) ==> Groups(cs[..p + 1]) == Groups(cs[..p])
  {
    assert cs[..p + 1][..p] == cs[..p];
  }

  /** A list entry and whether it is an inserted header. */
  datatype Item = Item(code: Cheatcode, isHeader: bool)

  function Entries(h: HeaderMaker, seen: set<string>, c: Cheatcode): seq<Item> {
    if c.group in seen then [Item(c, false)] else [Item(h(c), true), Item(c, false)]
  }

  /** The list with its headers. */
  function Tagged(h: HeaderMaker, cs: seq<Cheatcode>): seq<Item> {
    if cs == [] then [] else
      var front := cs[..|cs| - 1];
      Tagged(h, front) + Entries(h, Groups(front), cs[|cs| - 1])
  }

  lemma TaggedAppend(h: HeaderMaker, front: seq<Cheatcode>, c: Cheatcode)
    ensures Tagged(h, front + [c]) == Tagged(h, front) + Entries(h, Groups(front), c)
  {
    assert (front + [c])[..|front|] == front;
  }

  function Codes(items: seq<Item>): seq<Cheatcode> {
    seq(|items|, k requires 0 <= k < |items| => items[k].code)
  }

  /** What is left when the headers are deleted. */
  function Originals(items: seq<Item>): seq<Cheatcode> {
    if items == [] then [] else
      var last := items[|items| - 1];
      Originals(items[..|items| - 1]) + if last.isHeader then [] else [last.code]
  }

  lemma OriginalsAppend(h: HeaderMaker, items: seq<Item>, c: Cheatcode, seen: set<string>)
    ensures Originals(items + Entries(h, seen, c)) == Originals(items) + [c]
  {
    var e := Entries(h, seen, c);
    assert (items + e)[..|items + e| - 1] == items + e[..|e| - 1];
    if |e| == 2 {
      var it := items + e[..1];
      assert it[..|it| - 1] == items;
    } else {
      assert items + e[..0] == items;
    }
  }

  /** Deleting the headers gives back the list. */
  lemma {:induction false} OriginalsKept(h: HeaderMaker, cs: seq<Cheatcode>)
    ensures Originals(Tagged(h, cs)) == cs
  {
    if cs != [] {
      var front, last := cs[..|cs| - 1], cs[|cs| - 1];
      OriginalsKept(h, front);
      assert cs == front + [last];
      TaggedAppend(h, front, last);
      OriginalsAppend(h, Tagged(h, front), last, Groups(front));
    }
  }

  /** A header stands immediately before a cheatcode it is the header of, and nothing of its
      group comes earlier. */
  ghost predicate HeadsFirstMember(h: HeaderMaker, t: seq<Item>, p: nat)
    requires p < |t|
  {
    && p + 1 < |t| && !t[p + 1].isHeader
    && t[p].code == h(t[p + 1].code)
    && forall q :: 0 <= q < p ==> t[q].code.group != t[p].code.group
  }

  ghost predicate HasHeader(t: seq<Item>, g: string) {
    exists p :: 0 <= p < |t| && t[p].isHeader && t[p].code.group == g
  }

  lemma {:induction false} TaggedGroups(h: HeaderMaker, cs: seq<Cheatcode>)
    ensures forall k :: 0 <= k < |Tagged(h, cs)| ==> Tagged(h, cs)[k].code.group in Groups(cs)
  {
    if cs != [] {
      var front, last := cs[..|cs| - 1], cs[|cs| - 1];
      TaggedGroups(h, front);
    }
  }

  /** Every header heads the first member of its group. */
  lemma {:induction false} HeadersWellPlaced(h: HeaderMaker, cs: seq<Cheatcode>)
    ensures forall p :: 0 <= p < |Tagged(h, cs)| && Tagged(h, cs)[p].isHeader ==> HeadsFirstMember(h, Tagged(h, cs), p)
  {
    if cs != [] {
      var front := cs[..|cs| - 1];
      var tf, t := Tagged(h, front), Tagged(h, cs);
      HeadersWellPlaced(h, front);
      TaggedGroups(h, front);
      forall p | 0 <= p < |t| && t[p].isHeader
        ensures HeadsFirstMember(h, t, p)
      {
        if p < |tf| {
          assert t[p] == tf[p];
          assert HeadsFirstMember(h, tf, p);
          assert t[p + 1] == tf[p + 1];
          assert forall q :: 0 <= q < p ==> t[q] == tf[q];
        } else {
          assert forall q :: 0 <= q < p ==> t[q] == tf[q];
        }
      }
    }
  }

  lemma {:induction false} EveryGroupHeaded(h: HeaderMaker, cs: seq<Cheatcode>, g: string)
    requires g in Groups(cs)
    ensures HasHeader(Tagged(h, cs), g)
  {
    var front, last := cs[..|cs| - 1], cs[|cs| - 1];
    var t := Tagged(h, cs);
    assert cs == front + [last];
    if g in Groups(front) {
      EveryGroupHeaded(h, front, g);
      var p :| 0 <= p < |Tagged(h, front)| && Tagged(h, front)[p].isHeader && Tagged(h, front)[p].code.group == g;
      assert t[p] == Tagged(h, front)[p];
    } else {
      assert t[|Tagged(h, front)|] == Item(h(last), true);
    }
  }

  lemma AtMostOneHeader(h: HeaderMaker, cs: seq<Cheatcode>, p: nat, q: nat)
    requires p < q < |Tagged(h, cs)| && Tagged(h, cs)[p].isHeader && Tagged(h, cs)[q].isHeader
    ensures Tagged(h, cs)[p].code.group != Tagged(h, cs)[q].code.group
  {
    HeadersWellPlaced(h, cs);
    assert HeadsFirstMember(h, Tagged(h, cs), q);
  }

  /** Each group of the list gets exactly one header, immediately before its first member,
      and no other header is made. */
  lemma {:induction false} OneHeaderPerGroup(h: HeaderMaker, cs: seq<Cheatcode>)
    ensures var t := Tagged(h, cs);
            && (forall g :: HasHeader(t, g) <==> g in Groups(cs))
            && (forall p :: 0 <= p < |t| && t[p].isHeader ==> HeadsFirstMember(h, t, p))
            && (forall p, q :: 0 <= p < q < |t| && t[p].isHeader && t[q].isHeader ==>
                  t[p].code.group != t[q].code.group)
  {
    var t := Tagged(h, cs);
    HeadersWellPlaced(h, cs);
    TaggedGroups(h, cs);
    forall g | g in Groups(cs)
      ensures HasHeader(t, g)
    {
      EveryGroupHeaded(h, cs, g);
    }
    forall p, q | 0 <= p < q < |t| && t[p].isHeader && t[q].isHeader
      ensures t[p].code.group != t[q].code.group
    {
      AtMostOneHeader(h, cs, p, q);
    }
  }

  ghost predicate Sorted(cs: seq<Cheatcode>) {
    forall i, j :: 0 <= i < j < |cs| ==> Compare(cs[i], cs[j]) <= 0
  }

  predicate InOrder(g: string, h: string) {
    g == h || Less(g, h)
  }

  lemma MemberInOrder(front: seq<Cheatcode>, last: Cheatcode, g: string)
    requires Sorted(front + [last]) && g in Groups(front)
    ensures InOrder(g, last.group)
  {
    GroupsExact(front, g);
    var k :| 0 <= k < |front| && front[k].group == g;
    assert Compare((front + [last])[k], (front + [last])[|front|]) <= 0;
  }

  lemma EntriesInOrder(h: HeaderMaker, front: seq<Cheatcode>, last: Cheatcode, item: Item)
    requires Sorted(front + [last]) && item in Tagged(h, front)
    ensures InOrder(item.code.group, last.group)
  {
    TaggedGroups(h, front);
    MemberInOrder(front, last, item.code.group);
  }

  /** An item is one of the shorter headed list, or of the last cheatcode's group. */
  lemma TaggedAt(h: HeaderMaker, front: seq<Cheatcode>, last: Cheatcode, j: nat)
    requires j < |Tagged(h, front + [last])|
    ensures var t, item := Tagged(h, front), Tagged(h, front + [last])[j];
            if j < |t| then item == t[j] else item.code.group == last.group
  {
    TaggedAppend(h, front, last);
  }

  lemma {:induction false} TaggedInGroupOrder(h: HeaderMaker, cs: seq<Cheatcode>, i: nat, j: nat)
    requires Sorted(cs) && i <= j < |Tagged(h, cs)|
    ensures InOrder(Tagged(h, cs)[i].code.group, Tagged(h, cs)[j].code.group)
  {
    var front, last := cs[..|cs| - 1], cs[|cs| - 1];
    var t := Tagged(h, front);
    assert cs == front + [last];
    TaggedAt(h, front, last, i);
    TaggedAt(h, front, last, j);
    if j < |t| {
      TaggedInGroupOrder(h, front, i, j);
    } else if i < |t| {
      EntriesInOrder(h, front, last, t[i]);
    }
  }

  /** On a list sorted by `cmp_cheatcode` each header starts one contiguous block holding all
      of its group. */
  lemma {:induction false} SortedGivesBlocks(h: HeaderMaker, cs: seq<Cheatcode>, p: nat, k: nat)
    requires Sorted(cs)
    requires p < |Tagged(h, cs)| && Tagged(h, cs)[p].isHeader
    requires k < |Tagged(h, cs)| && Tagged(h, cs)[k].code.group == Tagged(h, cs)[p].code.group
    ensures p <= k
    ensures forall m :: p <= m <= k ==> Tagged(h, cs)[m].code.group == Tagged(h, cs)[p].code.group
  {
    var t := Tagged(h, cs);
    HeadersWellPlaced(h, cs);
    assert HeadsFirstMember(h, t, p);
    forall m | p <= m <= k
      ensures t[m].code.group == t[p].code.group
    {
      TaggedInGroupOrder(h, cs, p, m);
      TaggedInGroupOrder(h, cs, m, k);
      LessTotal(t[p].code.group, t[m].code.group);
    }
  }

  // ---------- the loop ----------

  /** `k` is where the loop raises: the first empty group, or the end. */
  ghost predicate StopsAt(cs: seq<Cheatcode>, k: nat) {
    && k <= |cs|
    && (k < |cs| ==> cs[k].group == "")
    && forall m :: 0 <= m < k ==> cs[m].group != ""
  }

  /** Where the loop stops with an IndexError: the first empty group, or the end. */
  function FirstUnnamed(cs: seq<Cheatcode>): (k: nat)
    ensures StopsAt(cs, k)
  {
    if cs == [] || cs[0].group == "" then 0 else 1 + FirstUnnamed(cs[1..])
  }

  lemma CodesAppend(items: seq<Item>, more: seq<Item>)
    ensures Codes(items + more) == Codes(items) + Codes(more)
  {
  }

  /** A list with `c` put in front of position `i`. */
  function Inserted(list: seq<Cheatcode>, i: nat, c: Cheatcode): seq<Cheatcode>
    requires i <= |list|
  {
    list[..i] + [c] + list[i..]
  }

  /** A Python list of cheatcodes. */
  class CheatList {
    var items: seq<Cheatcode>

    constructor (items: seq<Cheatcode>)
      ensures this.items == items
    {
      this.items := items;
    }

    /** `list.insert` at a position inside the list. */
    method Insert(i: nat, c: Cheatcode)
      requires i <= |items|
      modifies this
      ensures items == Inserted(old(items), i, c)
    {
      items := items[..i] + [c] + items[i..];
    }
  }

  /** What the loop makes of the rest of the list once the groups in `seen` have their header;
      an empty group stops it. */
  function Headed(h: HeaderMaker, rest: seq<Cheatcode>, seen: set<string>): seq<Cheatcode> {
    if rest == [] then []
    else if rest[0].group in seen then [rest[0]] + Headed(h, rest[1..], seen)
    else if rest[0].group == "" then rest
    else [h(rest[0]), rest[0]] + Headed(h, rest[1..], seen + {rest[0].group})
  }

  /** How many positions have a group that is not in `seen`. */
  function Unseen(rest: seq<Cheatcode>, seen: set<string>): nat {
    if rest == [] then 0 else (if rest[0].group in seen then 0 else 1) + Unseen(rest[1..], seen)
  }

  lemma {:induction false} UnseenShrinks(rest: seq<Cheatcode>, seen: set<string>, g: string)
    ensures Unseen(rest, seen + {g}) <= Unseen(rest, seen)
  {
    if rest != [] {
      UnseenShrinks(rest[1..], seen, g);
    }
  }

  ghost predicate HasUnnamed(cs: seq<Cheatcode>) {
    exists k :: 0 <= k < |cs| && cs[k].group == ""
  }

  /** Where the loop stands: what it still makes of the rest completes what it makes of the
      whole, and an empty group it would stop at is still ahead. */
  ghost predicate Standing(h: HeaderMaker, before: seq<Cheatcode>, list: seq<Cheatcode>, i: nat, seen: set<string>) {
    && i <= |list| && "" !in seen
    && list[..i] + Headed(h, list[i..], seen) == Headed(h, before, {})
    && (HasUnnamed(list[i..]) <==> HasUnnamed(before))
  }

  lemma StandsAtStart(h: HeaderMaker, before: seq<Cheatcode>)
    ensures Standing(h, before, before, 0, {})
  {
    assert before[0..] == before;
  }

  lemma Regroup<T>(x: seq<T>, y: seq<T>, z: seq<T>)
    ensures x + (y + z) == x + y + z
  {
  }

  lemma RestSplits(list: seq<Cheatcode>, i: nat)
    requires i < |list|
    ensures list[i..][0] == list[i] && list[i..][1..] == list[i + 1..] && list[..i] + [list[i]] == list[..i + 1]
    ensures list[i].group != "" ==> (HasUnnamed(list[i..]) <==> HasUnnamed(list[i + 1..]))
  {
    var rest, tail := list[i..], list[i + 1..];
    assert forall k :: 0 <= k < |tail| ==> rest[k + 1] == tail[k];
    assert forall k :: 0 < k < |rest| ==> rest[k] == tail[k - 1];
  }

  /** The group has been seen: pass to the next position. */
  lemma PassSeen(h: HeaderMaker, before: seq<Cheatcode>, list: seq<Cheatcode>, i: nat, seen: set<string>)
    requires Standing(h, before, list, i, seen) && i < |list| && list[i].group in seen
    ensures Standing(h, before, list, i + 1, seen)
    ensures Unseen(list[i + 1..], seen) == Unseen(list[i..], seen)
  {
    RestSplits(list, i);
    Regroup(list[..i], [list[i]], Headed(h, list[i + 1..], seen));
  }

  /** The position of the new group is behind its inserted header. */
  lemma InsertedSplits(list: seq<Cheatcode>, i: nat, c: Cheatcode)
    requires i <= |list|
    ensures Inserted(list, i, c)[..i + 1] == list[..i] + [c] && Inserted(list, i, c)[i + 1..] == list[i..]
    ensures |Inserted(list, i, c)| == |list| + 1
  {
  }

  lemma HeadedNew(h: HeaderMaker, rest: seq<Cheatcode>, seen: set<string>)
    requires rest != [] && rest[0].group !in seen && rest[0].group != ""
    ensures Headed(h, rest, seen) == [h(rest[0])] + Headed(h, rest, seen + {rest[0].group})
    ensures Unseen(rest, seen + {rest[0].group}) < Unseen(rest, seen)
  {
    var c, seen' := rest[0], seen + {rest[0].group};
    UnseenShrinks(rest[1..], seen, c.group);
    var tail := Headed(h, rest[1..], seen');
    assert Headed(h, rest, seen) == [h(c), c] + tail;
    assert Headed(h, rest, seen') == [c] + tail;
    SplitPair(h(c), c, tail);
  }

  lemma SplitPair<T>(x: T, y: T, tail: seq<T>)
    ensures [x, y] + tail == [x] + ([y] + tail)
  {
  }

  /** The group is new: its header goes in front. */
  lemma InsertNew(h: HeaderMaker, before: seq<Cheatcode>, list: seq<Cheatcode>, i: nat, seen: set<string>)
    requires Standing(h, before, list, i, seen) && i < |list| && list[i].group !in seen && list[i].group != ""
    ensures var list' := Inserted(list, i, h(list[i]));
            && |list'| == |list| + 1 && Standing(h, before, list', i + 1, seen + {list[i].group})
            && Unseen(list'[i + 1..], seen + {list[i].group}) < Unseen(list[i..], seen)
  {
    var c, seen' := list[i], seen + {list[i].group};
    InsertedSplits(list, i, h(c));
    HeadedNew(h, list[i..], seen);
    Regroup(list[..i], [h(c)], Headed(h, list[i..], seen'));
  }

  /** An empty group, or the end of the list: the loop is done. */
  lemma Stop(h: HeaderMaker, before: seq<Cheatcode>, list: seq<Cheatcode>, i: nat, seen: set<string>)
    requires Standing(h, before, list, i, seen)
    requires i < |list| ==> list[i].group == ""
    ensures i < |list| <==> HasUnnamed(before)
    ensures list == Headed(h, before, {})
  {
    assert list[..i] + list[i..] == list;
    if i < |list| {
      assert list[i..][0] == list[i];
      assert Headed(h, list[i..], seen) == list[i..];
    } else {
      assert Headed(h, list[i..], seen) == list[i..];
    }
  }

  lemma StopsPrefixed(h: HeaderMaker, before: seq<Cheatcode>, list: seq<Cheatcode>, i: nat, seen: set<string>)
    requires Standing(h, before, list, i, seen)
    requires i < |list| ==> list[i].group == ""
    ensures i < |list| <==> HasUnnamed(before)
    ensures list == Prefixed(h, before)
  {
    Stop(h, before, list, i, seen);
    HeadedIsPrefixed(h, before);
  }

  /** The loop inserts into the list it enumerates and terminates: an insertion leaves fewer
      positions of unseen groups, any other step a shorter rest. An empty group raises,
      leaving the headers inserted so far. */
  method PrefixWithHeaders(h: HeaderMaker, cheats: CheatList) returns (raised: bool)
    modifies cheats
    ensures raised <==> HasUnnamed(old(cheats.items))
    ensures cheats.items == Prefixed(h, old(cheats.items))
  {
    ghost var before := cheats.items;
    StandsAtStart(h, before);
    var seen: set<string> := {};
    var i := 0;
    while i < |cheats.items|
      invariant i <= |cheats.items| && Standing(h, before, cheats.items, i, seen)
      decreases Unseen(cheats.items[i..], seen), |cheats.items| - i
    {
      var cheat := cheats.items[i];
      if cheat.group in seen {
        PassSeen(h, before, cheats.items, i, seen);
      } else {
        if cheat.group == "" {
          StopsPrefixed(h, before, cheats.items, i, seen);
          return true;
        }
        InsertNew(h, before, cheats.items, i, seen);
        seen := seen + {cheat.group};
        cheats.Insert(i, h(cheat));
      }
      i := i + 1;
    }
    StopsPrefixed(h, before, cheats.items, i, seen);
    return false;
  }

  /** What `prefix_with_group_headers` leaves in the list: the headed list up to the first
      empty group, then the rest. */
  function Prefixed(h: HeaderMaker, cs: seq<Cheatcode>): seq<Cheatcode> {
    var k := FirstUnnamed(cs);
    Codes(Tagged(h, cs[..k])) + cs[k..]
  }

  lemma NoEmptyGroup(cs: seq<Cheatcode>, q: nat)
    requires q <= FirstUnnamed(cs)
    ensures "" !in Groups(cs[..q])
  {
    GroupsExact(cs[..q], "");
  }

  lemma HeadedNext(h: HeaderMaker, c: Cheatcode, tail: seq<Cheatcode>, seen: set<string>)
    requires c.group != ""
    ensures Headed(h, [c] + tail, seen) == Codes(Entries(h, seen, c)) + Headed(h, tail, seen + {c.group})
  {
    assert ([c] + tail)[1..] == tail;
    if c.group in seen {
      assert seen + {c.group} == seen;
    }
  }

  lemma TaggedNext(h: HeaderMaker, cs: seq<Cheatcode>, p: nat)
    requires p < |cs|
    ensures Codes(Tagged(h, cs[..p + 1])) == Codes(Tagged(h, cs[..p])) + Codes(Entries(h, Groups(cs[..p]), cs[p]))
  {
    assert cs[..p + 1] == cs[..p] + [cs[p]];
    TaggedAppend(h, cs[..p], cs[p]);
    CodesAppend(Tagged(h, cs[..p]), Entries(h, Groups(cs[..p]), cs[p]));
  }

  /** One more original: what it adds in front is what the headed list gets at its end. */
  lemma Advance(h: HeaderMaker, cs: seq<Cheatcode>, p: nat)
    requires p < |cs| && cs[p].group != ""
    ensures Codes(Tagged(h, cs[..p])) + Headed(h, cs[p..], Groups(cs[..p])) ==
            Codes(Tagged(h, cs[..p + 1])) + Headed(h, cs[p + 1..], Groups(cs[..p + 1]))
  {
    assert cs[p..] == [cs[p]] + cs[p + 1..];
    HeadedNext(h, cs[p], cs[p + 1..], Groups(cs[..p]));
    TaggedNext(h, cs, p);
    NextGroup(cs, p);
    Regroup(Codes(Tagged(h, cs[..p])), Codes(Entries(h, Groups(cs[..p]), cs[p])),
            Headed(h, cs[p + 1..], Groups(cs[..p + 1])));
  }

  lemma {:induction false} HeadedFrom(h: HeaderMaker, cs: seq<Cheatcode>, p: nat)
    requires p <= FirstUnnamed(cs)
    ensures Codes(Tagged(h, cs[..p])) + Headed(h, cs[p..], Groups(cs[..p])) == Prefixed(h, cs)
    decreases |cs| - p
  {
    if p < FirstUnnamed(cs) {
      Advance(h, cs, p);
      HeadedFrom(h, cs, p + 1);
    } else {
      NoEmptyGroup(cs, p);
      HeadedStops(h, cs[p..], Groups(cs[..p]));
    }
  }

  lemma HeadedStops(h: HeaderMaker, rest: seq<Cheatcode>, seen: set<string>)
    requires rest != [] ==> rest[0].group == "" && "" !in seen
    ensures Headed(h, rest, seen) == rest
  {
  }

  /** What the loop makes of a list is the headed list up to the first empty group. */
  lemma HeadedIsPrefixed(h: HeaderMaker, cs: seq<Cheatcode>)
    ensures Headed(h, cs, {}) == Prefixed(h, cs)
  {
    HeadedFrom(h, cs, 0);
    assert cs[..0] == [] && cs[0..] == cs;
  }

  /** `prefix_with_group_headers` with the header of the source. */
  method PrefixWithGroupHeaders(upper: char -> string, cheats: CheatList) returns (raised: bool)
    modifies cheats
    ensures raised <==> exists k :: 0 <= k < |old(cheats.items)| && old(cheats.items)[k].group == ""
    ensures cheats.items == Prefixed(HeaderWith(upper), old(cheats.items))
  {
    raised := PrefixWithHeaders(HeaderWith(upper), cheats);
  }

  // ---------- from the partition to the blocks ----------

  /** The cheatcodes of group `g` among the first `n`, in order. */
  function GroupUpTo(cs: seq<Cheatcode>, n: nat, g: string): seq<Cheatcode>
    requires n <= |cs|
  {
    if n == 0 then [] else GroupUpTo(cs, n - 1, g) + if cs[n - 1].group == g then [cs[n - 1]] else []
  }

  /** The cheatcodes of group `g`, in order. */
  function WithGroup(cs: seq<Cheatcode>, g: string): seq<Cheatcode> {
    GroupUpTo(cs, |cs|, g)
  }

  lemma {:induction false} GroupUpToPrefix(front: seq<Cheatcode>, c: Cheatcode, n: nat, g: string)
    requires n <= |front|
    ensures GroupUpTo(front + [c], n, g) == GroupUpTo(front, n, g)
  {
    if n > 0 {
      GroupUpToPrefix(front, c, n - 1, g);
    }
  }

  /** The items of group `g` among the first `n` that are no headers. */
  function Members(t: seq<Item>, n: nat, g: string): seq<Cheatcode>
    requires n <= |t|
  {
    if n == 0 then [] else
      Members(t, n - 1, g) + if !t[n - 1].isHeader && t[n - 1].code.group == g then [t[n - 1].code] else []
  }

  lemma {:induction false} MembersPrefix(a: seq<Item>, b: seq<Item>, n: nat, g: string)
    requires n <= |a|
    ensures Members(a + b, n, g) == Members(a, n, g)
  {
    if n > 0 {
      MembersPrefix(a, b, n - 1, g);
    }
  }

  lemma MembersEntries(h: HeaderMaker, t: seq<Item>, seen: set<string>, c: Cheatcode, g: string)
    ensures var t' := t + Entries(h, seen, c);
            Members(t', |t'|, g) == Members(t, |t|, g) + if c.group == g then [c] else []
  {
    var t' := t + Entries(h, seen, c);
    MembersPrefix(t, Entries(h, seen, c), |t|, g);
    if c.group !in seen {
      assert t'[|t|].isHeader && Members(t', |t| + 1, g) == Members(t', |t|, g);
    }
  }

  /** Of each group the headed list has the members of the list, in order. */
  lemma {:induction false} TaggedMembers(h: HeaderMaker, cs: seq<Cheatcode>, g: string)
    ensures Members(Tagged(h, cs), |Tagged(h, cs)|, g) == WithGroup(cs, g)
  {
    if cs != [] {
      var front, last := cs[..|cs| - 1], cs[|cs| - 1];
      TaggedMembers(h, front, g);
      MembersEntries(h, Tagged(h, front), Groups(front), last, g);
      assert cs == front + [last];
      GroupUpToPrefix(front, last, |front|, g);
    }
  }

  /** `list` from `p` to `e`: a header, then cheatcodes, all of group `g`; outside, none of it. */
  ghost predicate Block(h: HeaderMaker, list: seq<Cheatcode>, p: nat, e: nat, g: string) {
    && p + 1 < e <= |list| && list[p] == h(list[p + 1])
    && forall m :: 0 <= m < |list| ==> (list[m].group == g <==> p <= m < e)
  }

  /** Where the items of one group that start at `p` end. */
  lemma BlockEnd(t: seq<Item>, p: nat, g: string) returns (e: nat)
    requires p < |t| && t[p].code.group == g
    ensures p < e <= |t| && (e < |t| ==> t[e].code.group != g)
    ensures forall m :: p <= m < e ==> t[m].code.group == g
  {
    e := p + 1;
    while e < |t| && t[e].code.group == g
      invariant p < e <= |t|
      invariant forall m :: p <= m < e ==> t[m].code.group == g
    {
      e := e + 1;
    }
  }

  lemma FindBlock(h: HeaderMaker, cs: seq<Cheatcode>, g: string) returns (p: nat, e: nat)
    requires Sorted(cs) && g in Groups(cs)
    ensures e <= |Tagged(h, cs)| && Block(h, Codes(Tagged(h, cs)), p, e, g)
    ensures Tagged(h, cs)[p].isHeader && forall m :: p < m < e ==> !Tagged(h, cs)[m].isHeader
  {
    var t := Tagged(h, cs);
    OneHeaderPerGroup(h, cs);
    assert HasHeader(t, g);
    p :| 0 <= p < |t| && t[p].isHeader && t[p].code.group == g;
    assert HeadsFirstMember(h, t, p);
    e := BlockEnd(t, p, g);
    forall m | 0 <= m < |t| && t[m].code.group == g
      ensures p <= m < e
    {
      SortedGivesBlocks(h, cs, p, m);
    }
    ItemsAreBlock(h, t, p, e, g);
  }

  lemma ItemsAreBlock(h: HeaderMaker, t: seq<Item>, p: nat, e: nat, g: string)
    requires p + 1 < e <= |t| && t[p].code == h(t[p + 1].code)
    requires forall m :: 0 <= m < |t| ==> (t[m].code.group == g <==> p <= m < e)
    ensures Block(h, Codes(t), p, e, g)
  {
  }

  /** Codes and items of one list, entry by entry. */
  ghost predicate CodesOf(list: seq<Cheatcode>, t: seq<Item>) {
    |list| == |t| && forall m :: 0 <= m < |t| ==> list[m] == t[m].code
  }

  /** The members of `g` lie between `p` and `e`, behind a header at `p`. */
  ghost predicate Encloses(t: seq<Item>, p: nat, e: nat, g: string) {
    && p < e <= |t| && t[p].isHeader
    && (forall m :: 0 <= m < |t| ==> (t[m].code.group == g <==> p <= m < e))
    && (forall m :: p < m < e ==> !t[m].isHeader)
  }

  lemma {:induction false} MembersBefore(t: seq<Item>, p: nat, e: nat, g: string, n: nat)
    requires Encloses(t, p, e, g) && n <= p + 1
    ensures Members(t, n, g) == []
  {
    if n > 0 {
      MembersBefore(t, p, e, g, n - 1);
    }
  }

  lemma {:induction false} MembersInside(list: seq<Cheatcode>, t: seq<Item>, p: nat, e: nat, g: string, n: nat)
    requires Encloses(t, p, e, g) && CodesOf(list, t) && p + 1 <= n <= e
    ensures Members(t, n, g) == list[p + 1..n]
  {
    if n == p + 1 {
      MembersBefore(t, p, e, g, n);
    } else {
      MembersInside(list, t, p, e, g, n - 1);
      assert list[p + 1..n] == list[p + 1..n - 1] + [list[n - 1]];
    }
  }

  lemma {:induction false} MembersAfter(t: seq<Item>, p: nat, e: nat, g: string, n: nat)
    requires Encloses(t, p, e, g) && e <= n <= |t|
    ensures Members(t, n, g) == Members(t, e, g)
  {
    if n > e {
      MembersAfter(t, p, e, g, n - 1);
    }
  }

  /** The block of a group holds exactly its cheatcodes, in their order. */
  lemma BlockHoldsGroup(h: HeaderMaker, cs: seq<Cheatcode>, p: nat, e: nat, g: string)
    requires e <= |Tagged(h, cs)| && Block(h, Codes(Tagged(h, cs)), p, e, g)
    requires Tagged(h, cs)[p].isHeader && forall m :: p < m < e ==> !Tagged(h, cs)[m].isHeader
    ensures Codes(Tagged(h, cs))[p + 1..e] == WithGroup(cs, g)
  {
    var t := Tagged(h, cs);
    assert CodesOf(Codes(t), t);
    assert Encloses(t, p, e, g);
    MembersInside(Codes(t), t, p, e, g, e);
    MembersAfter(t, p, e, g, |t|);
    TaggedMembers(h, cs, g);
  }

  ghost predicate SortedPart(part: seq<Cheatcode>, ccs: seq<Cheatcode>, safety: string) {
    Sorted(part) && multiset(part) == multiset(WithSafety(ccs, safety))
  }

  lemma {:induction false} WithSafetyHolds(ccs: seq<Cheatcode>, safety: string, c: Cheatcode)
    ensures c in WithSafety(ccs, safety) <==> c in ccs && c.safety == safety
  {
    if ccs != [] {
      WithSafetyHolds(ccs[1..], safety, c);
      assert ccs == [ccs[0]] + ccs[1..];
    }
  }

  lemma {:induction false} GroupUpToHolds(cs: seq<Cheatcode>, n: nat, g: string, c: Cheatcode)
    requires n <= |cs|
    ensures c in GroupUpTo(cs, n, g) <==> c.group == g && exists k :: 0 <= k < n && cs[k] == c
  {
    if n > 0 {
      GroupUpToHolds(cs, n - 1, g, c);
    }
  }

  /** A sorted part without empty groups: the block of a group of it in the printed list. */
  lemma PartInBlocks(h: HeaderMaker, part: seq<Cheatcode>, c: Cheatcode)
    requires Sorted(part) && c in part && forall k :: 0 <= k < |part| ==> part[k].group != ""
    ensures exists p: nat, e: nat :: Block(h, Prefixed(h, part), p, e, c.group) &&
              Prefixed(h, part)[p + 1..e] == WithGroup(part, c.group) && c in Prefixed(h, part)[p + 1..e]
  {
    assert FirstUnnamed(part) == |part|;
    assert part[..|part|] == part && Prefixed(h, part) == Codes(Tagged(h, part));
    GroupsExact(part, c.group);
    var p, e := FindBlock(h, part, c.group);
    BlockHoldsGroup(h, part, p, e, c.group);
    GroupUpToHolds(part, |part|, c.group, c);
  }

  /** From `main`'s filtered list to what is printed: if the partition assertion passes and no
      group is empty, every cheatcode stands in the printed list of its part, in the one block
      that a header opens and that holds its group in sorted order. */
  lemma {:induction false} EveryCheatcodeInItsBlock(
      upper: char -> string, ccs: seq<Cheatcode>, safe: seq<Cheatcode>, unsafe: seq<Cheatcode>, c: Cheatcode)
    requires |WithSafety(ccs, "safe")| + |WithSafety(ccs, "unsafe")| == |ccs|
    requires SortedPart(safe, ccs, "safe") && SortedPart(unsafe, ccs, "unsafe")
    requires c in ccs && forall k :: 0 <= k < |ccs| ==> ccs[k].group != ""
    ensures c.safety == "safe" || c.safety == "unsafe"
    ensures var part := if c.safety == "safe" then safe else unsafe;
            var printed := Prefixed(HeaderWith(upper), part);
            exists p: nat, e: nat :: Block(HeaderWith(upper), printed, p, e, c.group) &&
              printed[p + 1..e] == WithGroup(part, c.group) && c in printed[p + 1..e]
  {
    PartitionAssertion(ccs);
    var k :| 0 <= k < |ccs| && ccs[k] == c;
    var part := if c.safety == "safe" then safe else unsafe;
    PartHolds(part, ccs, c.safety, c);
    forall j | 0 <= j < |part|
      ensures part[j].group != ""
    {
      PartHolds(part, ccs, c.safety, part[j]);
    }
    PartInBlocks(HeaderWith(upper), part, c);
  }

  lemma PartHolds(part: seq<Cheatcode>, ccs: seq<Cheatcode>, safety: string, c: Cheatcode)
    requires SortedPart(part, ccs, safety)
    ensures c in part <==> c in ccs && c.safety == safety
  {
    WithSafetyHolds(ccs, safety, c);
    assert c in part <==> c in multiset(part);
    assert c in WithSafety(ccs, safety) <==> c in multiset(WithSafety(ccs, safety));
  }
}
