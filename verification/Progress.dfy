/**
 Loops that visit the keys of a map in some order: part of the map is as it was, the rest
 as it will be.
 */
module Progress {

  /** The keys still to do are as they were, the others as they become. */
  ghost function Mixed<K, V>(was: map<K, V>, becomes: map<K, V>, todo: set<K>): map<K, V>
    requires was.Keys == becomes.Keys
  {
    map k | k in was :: if k in todo then was[k] else becomes[k]
  }

  /** The part of a report that concerns the keys already done. */
  ghost function Done<K, V>(report: map<K, V>, todo: set<K>): map<K, V> {
    map k | k in report && k !in todo :: report[k]
  }

  lemma Start<K, V, W>(was: map<K, V>, becomes: map<K, V>, report: map<K, W>, todo: set<K>)
    requires was.Keys == becomes.Keys && report.Keys <= todo
    requires forall k :: k in was && k !in todo ==> becomes[k] == was[k]
    ensures Mixed(was, becomes, todo) == was && Done(report, todo) == map[]
  {
  }

  lemma Advance<K, V, W>(was: map<K, V>, becomes: map<K, V>, report: map<K, W>, todo: set<K>, k: K)
    requires was.Keys == becomes.Keys && k in todo
    ensures Mixed(was, becomes, todo - {k}) ==
      if k in was then Mixed(was, becomes, todo)[k := becomes[k]] else Mixed(was, becomes, todo)
    ensures Done(report, todo - {k}) ==
      if k in report then Done(report, todo)[k := report[k]] else Done(report, todo)
  {
  }

  lemma Finish<K, V, W>(was: map<K, V>, becomes: map<K, V>, report: map<K, W>)
    requires was.Keys == becomes.Keys
    ensures Mixed(was, becomes, {}) == becomes && Done(report, {}) == report
  {
  }
}
