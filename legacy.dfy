// The version-1 UAST node record: protocol.Node (protocol/types.go), which
// the older uast package used as uast.Node with the same fields. Rules,
// annotations, the NPath metric and the protocol conversions work on it.
module Legacy {
  import opened Wrappers

  /** A role is identified by its name (role.Role and role.FromString are a bijection on names). */
  type Role = string

  /** uast.Position: byte offset (0-based), line and column (1-based), each a uint32. */
  datatype Position = Position(offset: nat, line: nat, col: nat)

  /** The key under which the field name of a node in its parent is kept. */
  const InternalRoleKey := "internalRole"

  datatype LNode = LNode(
    internalType: string,
    properties: map<string, string>,
    children: seq<LNode>,
    token: string,
    start: Option<Position>,
    end: Option<Position>,
    roles: seq<Role>)

  /** A node with only an internal type; everything else empty. */
  function Typed(t: string): LNode
  {
    LNode(t, map[], [], "", None, None, [])
  }

  /** NodePath: the nodes from the root down to the current one. */
  type NodePath = seq<LNode>

  /** The same node with roles appended at the end of its role list. */
  function WithRoles(n: LNode, roles: seq<Role>): (r: LNode)
    ensures r.roles == n.roles + roles
    ensures r.(roles := n.roles) == n
  {
    n.(roles := n.roles + roles)
  }

  /** The path with its last node (the current one) replaced. */
  function SetLast(path: NodePath, n: LNode): (r: NodePath)
    requires path != []
    ensures |r| == |path| && r[|r| - 1] == n && r[..|r| - 1] == path[..|path| - 1]
  {
    path[..|path| - 1] + [n]
  }

  /** The number of nodes in a tree. */
  function Count(n: LNode): nat
  {
    1 + CountSeq(n.children)
  }

  function CountSeq(s: seq<LNode>): nat
  {
    if s == [] then 0 else CountSeq(s[..|s| - 1]) + Count(s[|s| - 1])
  }
}
