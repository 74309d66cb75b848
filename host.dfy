/**
 * The document the renderer writes to, reduced to what the renderer reads
 * back: which node hangs under which parent and which nodes are text nodes,
 * plus the log of every host call made, in order. Nodes are numbered in
 * creation order.
 */
module Host {
  import opened JsValues

  /** One call the renderer makes on the host. */
  datatype HostOp =
    | CreateTextNode(node: nat)                                   // document.createTextNode('')
    | CreateElementNode(node: nat, tagName: Value)                // document.createElement(type)
    | AppendChild(parent: nat, child: nat)
    | RemoveChild(parent: nat, child: nat)
    | RemoveEventListener(node: nat, event: string, handler: Value)
    | AddEventListener(node: nat, event: string, handler: Value)
    | SetProperty(node: nat, name: string, value: Value)          // dom[name] = value
    | SetAttribute(node: nat, name: string, value: Value)
    | SetStyle(node: nat, key: string, value: Value)              // dom.style[key] = value
    | SetStyleProperty(node: nat, key: string, value: Value)      // dom.style.setProperty(key, value)
    | SetNodeValue(node: nat, value: Value)                       // text.nodeValue = value
    | CallRef(ref: Value, arg: Value)                             // ref(value)
    | AssignCurrent(ref: Value, value: Value)                      // ref.current = value
    | Call(fn: Value)                                             // an effect, cleanup or `create` called with no arguments
    | Warn(kind: Value)                                           // console.warn('Unknown fiber type:', type)

  datatype Document = Document(parentOf: map<nat, nat>, textNodes: set<nat>, nodeCount: nat, log: seq<HostOp>)

  /** Every node the document knows of was created. */
  predicate WellFormed(d: Document) {
    (forall n :: n in d.parentOf ==> n < d.nodeCount && d.parentOf[n] < d.nodeCount)
    && (forall n :: n in d.textNodes ==> n < d.nodeCount)
  }

  /** `node.parentNode` is non-null. */
  predicate Attached(d: Document, node: nat) {
    node in d.parentOf
  }

  /** Calls that leave the tree as it is. */
  function Emit(d: Document, ops: seq<HostOp>): (r: Document)
    ensures r.parentOf == d.parentOf && r.textNodes == d.textNodes && r.nodeCount == d.nodeCount
    ensures r.log == d.log + ops
  {
    d.(log := d.log + ops)
  }

  /** `parent.appendChild(child)`: the child moves under `parent`. */
  function Append(d: Document, parent: nat, child: nat): (r: Document)
    ensures Attached(r, child) && r.parentOf[child] == parent
    ensures forall n :: n != child ==> (n in r.parentOf <==> n in d.parentOf)
    ensures r.log == d.log + [AppendChild(parent, child)]
  {
    d.(parentOf := d.parentOf[child := parent], log := d.log + [AppendChild(parent, child)])
  }

  /** `parent.removeChild(child)`: the child is detached. */
  function Remove(d: Document, parent: nat, child: nat): (r: Document)
    ensures !Attached(r, child)
    ensures forall n :: n != child ==> (n in r.parentOf <==> n in d.parentOf)
    ensures r.log == d.log + [RemoveChild(parent, child)]
  {
    d.(parentOf := d.parentOf - {child}, log := d.log + [RemoveChild(parent, child)])
  }

  /** A new detached node, the next in creation order. */
  function NewNode(d: Document, text: bool, tagName: Value): (r: (Document, nat))
    ensures r.1 == d.nodeCount && r.0.nodeCount == d.nodeCount + 1
    ensures !Attached(r.0, r.1) || Attached(d, r.1)
    ensures (r.1 in r.0.textNodes) <==> text || r.1 in d.textNodes
  {
    var node := d.nodeCount;
    var op := if text then CreateTextNode(node) else CreateElementNode(node, tagName);
    (d.(textNodes := if text then d.textNodes + {node} else d.textNodes, nodeCount := node + 1, log := d.log + [op]), node)
  }

  /** A fresh node is detached and never a text node by accident. */
  lemma NewNodeIsFresh(d: Document, text: bool, tagName: Value)
    requires WellFormed(d)
    ensures WellFormed(NewNode(d, text, tagName).0)
    ensures !Attached(NewNode(d, text, tagName).0, NewNode(d, text, tagName).1)
    ensures (NewNode(d, text, tagName).1 in NewNode(d, text, tagName).0.textNodes) <==> text
  {
  }
}
