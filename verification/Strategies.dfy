/** Names of conflict-resolution strategies (crates/ussl-core/src/crdt.rs:28-53). */
module Strategies {
  import opened Basics
  import Documents

  type Strategy = Documents.Strategy

  function LowerChar(c: char): char {
    if 'A' <= c <= 'Z' then (c as int + 32) as char else c
  }

  function Lower(s: string): string {
    seq(|s|, i requires 0 <= i < |s| => LowerChar(s[i]))
  }

  function StrategyName(s: Strategy): string {
    match s
    case Lww => "lww"
    case CrdtCounter => "crdt-counter"
    case CrdtSet => "crdt-set"
    case CrdtMap => "crdt-map"
    case CrdtText => "crdt-text"
  }

  function ParseStrategy(text: string): Option<Strategy> {
    var s := Lower(text);
    if s == "lww" then Some(Documents.Lww)
    else if s == "crdt-counter" || s == "counter" then Some(Documents.CrdtCounter)
    else if s == "crdt-set" || s == "set" then Some(Documents.CrdtSet)
    else if s == "crdt-map" || s == "map" then Some(Documents.CrdtMap)
    else if s == "crdt-text" || s == "text" then Some(Documents.CrdtText)
    else None
  }

  /** The printed name parses back, in any mixture of cases. */
  lemma StrategyNameParses(s: Strategy, text: string)
    requires Lower(text) == StrategyName(s)
    ensures ParseStrategy(text) == Some(s)
  {}

  lemma NamesAreLower(s: Strategy)
    ensures Lower(StrategyName(s)) == StrategyName(s)
  {}
}
