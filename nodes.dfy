/**
 * The node object every capability view is bound to. Views keep a reference to it and the
 * mutators assign its contents in place, so two views over one node see each other's changes.
 */
module Nodes {
  import opened Js

  class Node {
    var value: Value

    constructor(v: Value)
      ensures value == v
    {
      value := v;
    }
  }
}
