/** `field_count`: the mean number of members (struct fields and enum
    variants) per struct or enum item, 0 for a file without either. */
module FieldCount {
  import opened Syntax
  import opened Cursors
  import opened Common

  predicate IsType(n: Node)
  {
    n.kind == "struct_item" || n.kind == "enum_item"
  }

  /** A struct field or an enum variant. */
  predicate IsMember(n: Node)
  {
    n.kind == "field_declaration" || n.kind == "enum_variant"
  }

  function MemberFlag(it: Item): nat
  {
    if IsMember(it.node) then 1 else 0
  }

  /** Members of a type: the `field_declaration` and `enum_variant` nodes
      anywhere in its subtree, so the fields of a struct-like enum variant
      count as well as the variant. */
  function MemberCount(n: Node): nat
  {
    Tally(MemberFlag, Preorder(n, 0))
  }

  /** The type node itself is not a member: only its descendants count. */
  lemma TypeNodeNotCounted(n: Node)
    requires IsType(n)
    ensures MemberCount(n) == Tally(MemberFlag, PreorderForest(n.children, 1))
  {
    TallyPreorder(MemberFlag, n, 0);
  }

  /** `count_type_members`: a cursor walk over the type's subtree. */
  method CountTypeMembers(n: Node) returns (memberCount: nat)
    ensures memberCount == MemberCount(n)
  {
    var c := new TreeCursor(n);
    memberCount := 0;
    while true
      invariant c.Valid() && c.root == n
      invariant memberCount == Tally(MemberFlag, c.done)
      decreases |Preorder(n, 0)| - |c.done|
    {
      ghost var seen := c.done + [c.here];
      TallyAppend(MemberFlag, c.done, c.here);
      var child := c.Node();
      if IsMember(child) {
        memberCount := memberCount + 1;
      }
      assert memberCount == Tally(MemberFlag, seen);
      var down := c.GotoFirstChild();
      if !down {
        PreorderLeaf(c.here);
        var more := c.Climb();
        if !more {
          assert seen == Preorder(n, 0);
          return;
        }
      }
    }
  }

  function TypeFlag(it: Item): nat
  {
    if IsType(it.node) then 1 else 0
  }

  function TypeMembers(it: Item): nat
  {
    if IsType(it.node) then MemberCount(it.node) else 0
  }

  /** Number of struct and enum items of the tree. */
  function TypeCount(t: Node): nat
  {
    Tally(TypeFlag, Preorder(t, 0))
  }

  /** Sum of the member counts of all struct and enum items. */
  function TotalMembers(t: Node): nat
  {
    Tally(TypeMembers, Preorder(t, 0))
  }

  /** What `field_count` reports. */
  function AverageFields(t: Node): real
  {
    if TypeCount(t) == 0 then 0.0 else TotalMembers(t) as real / TypeCount(t) as real
  }

  /** The average is never negative, and a file without struct or enum
      items has no members to count. */
  lemma AverageFieldsFacts(t: Node)
    ensures AverageFields(t) >= 0.0
    ensures TypeCount(t) == 0 ==> TotalMembers(t) == 0 && AverageFields(t) == 0.0
  {
    if TypeCount(t) == 0 {
      NoTypesNoMembers(Preorder(t, 0));
    }
  }

  lemma {:induction false} NoTypesNoMembers(s: seq<Item>)
    requires Tally(TypeFlag, s) == 0
    ensures Tally(TypeMembers, s) == 0
    decreases |s|
  {
    if s != [] {
      NoTypesNoMembers(s[..|s| - 1]);
    }
  }

  /** The counters at the end of the walk give the reported average. */
  lemma FieldsPerType(t: Node, total: nat, types: nat)
    requires total == TotalMembers(t) && types == TypeCount(t) && types > 0
    ensures total as real / types as real == AverageFields(t)
  {
  }

  method FieldCount(t: Node, src: seq<bv8>) returns (m: Metric)
    ensures m.name == "fields"
    ensures m.value == AverageFields(t)
  {
    var c := new TreeCursor(t);
    var fields: nat := 0;
    var typeCount: nat := 0;
    while true
      invariant c.Valid() && c.root == t
      invariant fields == Tally(TypeMembers, c.done)
      invariant typeCount == Tally(TypeFlag, c.done)
      decreases |Preorder(t, 0)| - |c.done|
    {
      ghost var seen := c.done + [c.here];
      TallyAppend(TypeMembers, c.done, c.here);
      TallyAppend(TypeFlag, c.done, c.here);
      var node := c.Node();
      if IsType(node) {
        typeCount := typeCount + 1;
        var members := CountTypeMembers(node);
        fields := fields + members;
      }
      assert fields == Tally(TypeMembers, seen) && typeCount == Tally(TypeFlag, seen);
      var down := c.GotoFirstChild();
      if !down {
        PreorderLeaf(c.here);
        var more := c.Climb();
        if !more {
          assert seen == Preorder(t, 0);
          if typeCount == 0 {
            return Metric("fields", 0.0);
          }
          FieldsPerType(t, fields, typeCount);
          return Metric("fields", fields as real / typeCount as real);
        }
      }
    }
  }
}
