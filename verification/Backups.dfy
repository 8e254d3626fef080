// The list of backups in internal/services/backup_service.go: its in-place sort, the clean-up of
// old backups and the choice of the last one.
module Backups {
  import opened Wrappers

  datatype Backup = Backup(id: int, startTime: int, status: string, kind: string)

  ghost predicate Descending(s: seq<Backup>) {
    forall i, j :: 0 <= i < j < |s| ==> s[i].startTime >= s[j].startTime
  }

  ghost predicate SamePieces(s: seq<Backup>, t: seq<Backup>) {
    multiset(s) == multiset(t)
  }

  method Swap(a: array<Backup>, i: nat, j: nat)
    requires i < j < a.Length
    modifies a
    ensures a[..] == old(a[..])[i := old(a[j])][j := old(a[i])]
    ensures SamePieces(a[..], old(a[..]))
  {
    a[i], a[j] := a[j], a[i];
  }

  // The first k entries are in their places: none is older than any entry behind it.
  ghost predicate Placed(s: seq<Backup>, k: int) {
    forall p, q :: 0 <= p < q < |s| && p < k ==> s[p].startTime >= s[q].startTime
  }

  lemma SwapKeepsPlaced(s: seq<Backup>, i: nat, j: nat)
    requires i < j < |s| && Placed(s, i)
    ensures Placed(s[i := s[j]][j := s[i]], i)
  {
  }

  // The exchange sort of ListBackups: newest first.
  method SortBackups(a: array<Backup>)
    modifies a
    ensures Descending(a[..]) && SamePieces(a[..], old(a[..]))
  {
    var n := a.Length;
    var i := 0;
    while i < n - 1
      invariant 0 <= i <= n
      invariant Placed(a[..], i)
      invariant SamePieces(a[..], old(a[..]))
    {
      var j := i + 1;
      while j < n
        invariant i < j <= n
        invariant Placed(a[..], i)
        invariant forall k :: i < k < j ==> a[i].startTime >= a[k].startTime
        invariant SamePieces(a[..], old(a[..]))
      {
        if a[i].startTime < a[j].startTime {
          SwapKeepsPlaced(a[..], i, j);
          Swap(a, i, j);
        }
        j := j + 1;
      }
      i := i + 1;
    }
  }

  // CleanupOldBackups, when every deletion succeeds: what is deleted is a suffix of the list.
  method CleanupOldBackups(list: seq<Backup>, cutoff: int) returns (kept: seq<Backup>, deleted: seq<Backup>)
    requires Descending(list)
    ensures kept + deleted == list
    ensures forall i :: 0 <= i < |kept| ==> kept[i].startTime >= cutoff
    ensures forall i :: 0 <= i < |deleted| ==> deleted[i].startTime < cutoff
  {
    kept, deleted := [], [];
    for i := 0 to |list|
      invariant kept + deleted == list[..i]
      invariant forall k :: 0 <= k < |kept| ==> kept[k].startTime >= cutoff
      invariant forall k :: 0 <= k < |deleted| ==> deleted[k].startTime < cutoff
    {
      if list[i].startTime < cutoff {
        deleted := deleted + [list[i]];
      } else {
        assert |kept| < i ==> (kept + deleted)[|kept|] == list[|kept|];
        kept := kept + [list[i]];
      }
    }
  }

  predicate Eligible(b: Backup) {
    b.status == "completed" && (b.kind == "full" || b.kind == "incremental")
  }

  // findLastBackup: on a sorted list, the first completed full or incremental backup.  The zero
  // time (0 here) counts as no backup.
  method FindLastBackup(list: seq<Backup>) returns (r: Option<Backup>)
    requires Descending(list)
    ensures r.None? <==>
              forall b :: b in list && b.status == "completed" && b.kind in {"full", "incremental"} ==> b.startTime <= 0
    ensures r.Some? ==> r.value.status == "completed" && r.value.kind in {"full", "incremental"}
    ensures r.Some? ==> exists k :: 0 <= k < |list| && list[k] == r.value && Eligible(list[k]) && list[k].startTime > 0
                               && forall j :: 0 <= j < k ==> !Eligible(list[j])
  {
    r := None;
    var lastTime := 0;
    ghost var at := 0;
    for i := 0 to |list|
      invariant r.None? ==> lastTime == 0 && forall j :: 0 <= j < i && Eligible(list[j]) ==> list[j].startTime <= 0
      invariant r.Some? ==>
                  && 0 <= at < i && list[at] == r.value && Eligible(list[at])
                  && lastTime == list[at].startTime > 0
                  && forall j :: 0 <= j < at ==> !Eligible(list[j])
    {
      if Eligible(list[i]) && list[i].startTime > lastTime {
        assert forall j :: 0 <= j < i ==> list[j].startTime >= list[i].startTime;
        r, lastTime, at := Some(list[i]), list[i].startTime, i;
      }
    }
  }
}
