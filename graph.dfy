/**
 * The Graph class of graph.js: the teacher/subject assignment network, with
 * vertex 0 the source, 1..T the teachers, T+1..numVet-2 the subjects and
 * numVet-1 the sink, and the steps that build it from the loaded CSV data.
 */
module GraphImpl {
  import opened JsValues
  import opened GraphSpec

  /**
   * cleanData's `for ... of` loop over the filtered subject lists: it walks the
   * live list by position and splices out each empty list it meets; the
   * splice moves the next list into the position just visited, so that list
   * is skipped.
   */
  method SpliceEmptyLists(lists: seq<seq<string>>) returns (r: seq<seq<string>>)
    ensures r == SpliceEmpties(lists)
  {
    r := lists;
    var k := 0;
    while k < |r|
      invariant k <= |r| + 1
      invariant k <= |r| ==> r[..k] + SpliceEmpties(r[k..]) == SpliceEmpties(lists)
      invariant k == |r| + 1 ==> r == SpliceEmpties(lists)
      decreases |r| + 1 - k
    {
      if r[k] == [] {
        SpliceAtEmpty(r, k);
        r := r[..k] + r[k + 1..];
      } else {
        SpliceAtFilled(r, k);
      }
      k := k + 1;
    }
    if k == |r| {
      assert r[..k] == r;
    }
  }

  /**
   * setSinkEdges' first loop: the queue of `subject[2]` for every subject
   * record, in order.
   */
  method SubjectCapacities(records: seq<seq<string>>) returns (caps: seq<Cap>)
    ensures caps == FieldCaps(records)
  {
    caps := [];
    var r := 0;
    while r < |records|
      invariant 0 <= r <= |records|
      invariant caps == FieldCaps(records[..r])
    {
      assert records[..r + 1][..r] == records[..r];
      caps := caps + [FieldCap(records[r])];
      r := r + 1;
    }
    assert records[..r] == records;
  }

  /**
   * setSinkEdges' inner `for ... of`: takes the first capacity of the queue, if
   * any, and stops; with the queue empty the capacity taken before stays. With
   * `n` capacities of `caps` handed out so far, the one taken is the n-th
   * capacity `SinkCap` assigns and the queue shrinks to the ones after it.
   */
  method TakeCapacity(ghost caps: seq<Cap>, ghost n: nat, queue: seq<Cap>, last: Cap) returns (rest: seq<Cap>, taken: Cap)
    requires queue == caps[Min(n, |caps|)..]
    requires last == if n == 0 then Null else SinkCap(caps, n - 1)
    ensures taken == SinkCap(caps, n)
    ensures rest == caps[Min(n + 1, |caps|)..]
  {
    SinkCapTaken(caps, n, queue, last);
    rest, taken := queue, last;
    if rest != [] {
      taken := rest[0];
      rest := rest[1..];
    }
  }

  class Graph {
    var numVet: nat
    var numEdg: int
    /** Dense adjacency matrix, a list of rows; a cell is 0 (None) or a `[flow, capacity]` pair. */
    var matAdj: seq<seq<Cell>>
    /**
     * The adjacency list. graph.js fills all numVet slots with one and the
     * same empty array, so `listAdj[0] .. listAdj[numVet-1]` are this one
     * shared list, and a push through any vertex lands here.
     */
    var listAdj: seq<Entry>
    var subjectsIndex: map<nat, seq<string>>
    var teachersIndex: map<nat, TeacherEntry>
    var numOfClasses: Parsed
    var edgesList: seq<Triple>
    var awayTeachers: seq<string>
    /** Per teacher, the subject ids of CSV fields 2 to 5. */
    var subjects: seq<seq<string>>
    var teachers: seq<string>
    /** The subject records, the trailing aggregate record included until cleanData. */
    var subjectsData: seq<seq<string>>
    var subjectsOffered: seq<string>
    /** Undefined (None) until reset or the subject reader sets it. */
    var totalOfSubjects: Option<int>

    ghost predicate Valid()
      reads this
    {
      Square(matAdj, numVet)
    }

    /** The constructor with no matrix or list supplied. */
    constructor (numVet: nat := 0, numEdg: int := 0)
      ensures Valid() && matAdj == EmptyMatrix(numVet)
      ensures this.numVet == numVet && this.numEdg == numEdg
      ensures listAdj == [] && subjectsIndex == map[] && teachersIndex == map[]
      ensures numOfClasses == Int(0) && edgesList == [] && awayTeachers == []
      ensures subjects == [] && teachers == [] && subjectsData == [] && subjectsOffered == []
      ensures totalOfSubjects == None
    {
      this.numVet := numVet;
      this.numEdg := numEdg;
      matAdj := EmptyMatrix(numVet);
      listAdj := [];
      subjectsIndex := map[];
      teachersIndex := map[];
      numOfClasses := Int(0);
      edgesList := [];
      awayTeachers := [];
      subjects := [];
      teachers := [];
      subjectsData := [];
      subjectsOffered := [];
      totalOfSubjects := None;
    }

    /** `numVet` vertices, the n x n zero matrix and one shared empty list, as reset and run set them up. */
    method Resize(n: nat)
      modifies this`numVet, this`matAdj, this`listAdj
      ensures Valid() && numVet == n && matAdj == EmptyMatrix(n) && listAdj == []
    {
      numVet := n;
      matAdj := EmptyMatrix(n);
      listAdj := [];
    }

    /** Rebuilds the network for a new size; the teacher data are kept. */
    method Reset(numVet: nat := 0, numEdg: int := 0)
      modifies this
      ensures Valid() && matAdj == EmptyMatrix(numVet)
      ensures this.numVet == numVet && this.numEdg == numEdg
      ensures listAdj == [] && subjectsIndex == map[] && teachersIndex == map[]
      ensures numOfClasses == Int(0) && edgesList == [] && awayTeachers == []
      ensures subjectsData == [] && totalOfSubjects == Some(0)
      ensures teachers == old(teachers) && subjects == old(subjects) && subjectsOffered == old(subjectsOffered)
    {
      Resize(numVet);
      this.numEdg := numEdg;
      subjectsIndex := map[];
      teachersIndex := map[];
      numOfClasses := Int(0);
      edgesList := [];
      awayTeachers := [];
      subjectsData := [];
      totalOfSubjects := Some(0);
    }

    /**
     * Sets the edge `source -> sink`, overwriting any edge there, and pushes a
     * copy of its pair on the shared adjacency list. An out-of-range vertex is
     * only reported on the console, which is not modelled.
     */
    method AddEdge(source: nat, sink: nat, capacity: Cap := Infinity, flow: int := 0)
      requires Valid()
      modifies this`numEdg, this`listAdj, this`matAdj
      ensures Valid()
      ensures source < numVet && sink < numVet ==>
        matAdj == SetCell(old(matAdj), source, sink, Some(Edge(flow, capacity))) &&
        listAdj == old(listAdj) + [(sink, Edge(flow, capacity))] &&
        numEdg == old(numEdg) + 1
      ensures !(source < numVet && sink < numVet) ==>
        matAdj == old(matAdj) && listAdj == old(listAdj) && numEdg == old(numEdg)
    {
      if source < numVet && sink < numVet {
        SetCellCells(matAdj, numVet, source, sink, Some(Edge(flow, capacity)));
        matAdj := SetCell(matAdj, source, sink, Some(Edge(flow, capacity)));
        listAdj := listAdj + [(sink, Edge(flow, capacity))];
        numEdg := numEdg + 1;
      }
    }

    /**
     * Clears the cell `source -> sink`. The adjacency list is left as it is: the
     * graph.js walks it with forEach and discards what the callback returns. The
     * edge count drops even when there was no edge.
     */
    method RemoveEdge(source: nat, sink: nat)
      requires Valid()
      modifies this`numEdg, this`matAdj
      ensures Valid()
      ensures source < numVet && sink < numVet ==>
        matAdj == SetCell(old(matAdj), source, sink, None) && numEdg == old(numEdg) - 1
      ensures !(source < numVet && sink < numVet) ==> matAdj == old(matAdj) && numEdg == old(numEdg)
    {
      if source < numVet && sink < numVet {
        if matAdj[source][sink] != None {
          SetCellCells(matAdj, numVet, source, sink, None);
          matAdj := SetCell(matAdj, source, sink, None);
        } else {
          assert matAdj[source][sink := None] == matAdj[source];
        }
        numEdg := numEdg - 1;
      }
    }

    /** Appends a `[source, sink, flow]` triple for every non-zero cell, row by row. */
    method SetEdgesList()
      modifies this`edgesList
      ensures edgesList == old(edgesList) + Listing(matAdj, |matAdj|)
    {
      var i := 0;
      while i < |matAdj|
        invariant 0 <= i <= |matAdj|
        invariant edgesList == old(edgesList) + Listing(matAdj, i)
      {
        var j := 0;
        while j < |matAdj[i]|
          invariant 0 <= j <= |matAdj[i]|
          invariant edgesList == old(edgesList) + Listing(matAdj, i) + RowListing(matAdj, i, j)
        {
          if matAdj[i][j].Some? {
            var flow := matAdj[i][j].value.flow;
            edgesList := edgesList + [Triple(i, j, flow)];
          }
          j := j + 1;
        }
        i := i + 1;
      }
    }

    /**
     * Drops blank teacher names and blank subject ids, splices out empty
     * subject lists while iterating over them, and pops the aggregate record
     * off the subject data, keeping its first non-blank field as numOfClasses.
     * On empty subject data pop yields undefined and graph.js throws.
     */
    method CleanData()
      requires |subjectsData| > 0
      modifies this`teachers, this`subjects, this`numOfClasses, this`subjectsData
      ensures teachers == NonBlank(old(teachers))
      ensures subjects == SpliceEmpties(NonBlankEach(old(subjects)))
      ensures subjectsData == old(subjectsData)[..|old(subjectsData)| - 1]
      ensures numOfClasses == TotalClasses(old(subjectsData)[|old(subjectsData)| - 1])
    {
      var filteredTeachers := NonBlank(teachers);
      var filteredSubjects := NonBlankEach(subjects);
      filteredSubjects := SpliceEmptyLists(filteredSubjects);
      var last := subjectsData[|subjectsData| - 1];
      subjectsData := subjectsData[..|subjectsData| - 1];
      var totalClasses := At(last, FirstNonBlank(last));
      numOfClasses := match totalClasses
        case Some(field) => ParseInt(field)
        case None => NaN;
      teachers := filteredTeachers;
      subjects := filteredSubjects;
    }

    /**
     * Records teacher `i` under vertex `i+1`, and gives the subject vertices
     * `T+1 .. numVet-2` the subject lists in order while any remain.
     */
    method SetTeachersAndSubjectsIndexes()
      modifies this`teachersIndex, this`subjectsIndex
      ensures teachersIndex == old(teachersIndex) + TeacherEntries(teachers, subjectsOffered, subjects, |teachers|)
      ensures subjectsIndex == old(subjectsIndex) +
        SubjectEntries(|teachers| + 1, subjects, Min(SubjectCount(numVet, |teachers|), |subjects|))
    {
      var i := 0;
      while i < |teachers|
        invariant 0 <= i <= |teachers|
        invariant teachersIndex == old(teachersIndex) + TeacherEntries(teachers, subjectsOffered, subjects, i)
        invariant subjectsIndex == old(subjectsIndex)
      {
        MapUnionUpdate(old(teachersIndex), TeacherEntries(teachers, subjectsOffered, subjects, i),
          i + 1, TeacherEntry(teachers[i], At(subjectsOffered, i), At(subjects, i)));
        teachersIndex := teachersIndex[i + 1 := TeacherEntry(teachers[i], At(subjectsOffered, i), At(subjects, i))];
        i := i + 1;
      }
      var t := |teachers|;
      var subjectsCopies := subjects;
      var j := t + 1;
      ghost var taken := 0;
      MapUnionEmpty(old(subjectsIndex));
      // The inner `for ... of` takes the first remaining copy, if any, and breaks.
      while j < numVet - 1
        invariant t + 1 <= j
        invariant j <= numVet - 1 || j == t + 1
        invariant taken == Min(j - t - 1, |subjects|)
        invariant teachersIndex == old(teachersIndex) + TeacherEntries(teachers, subjectsOffered, subjects, t)
        invariant subjectsCopies == subjects[taken..]
        invariant subjectsIndex == old(subjectsIndex) + SubjectEntries(t + 1, subjects, taken)
      {
        if subjectsCopies != [] {
          MapUnionUpdate(old(subjectsIndex), SubjectEntries(t + 1, subjects, taken), j, subjectsCopies[0]);
          subjectsIndex := subjectsIndex[j := subjectsCopies[0]];
          subjectsCopies := subjectsCopies[1..];
          taken := taken + 1;
        }
        j := j + 1;
      }
    }

    /**
     * Adds `0 -> i` with capacity `subjectsOffered[i-1]` for every teacher
     * vertex, then clears the self-loop `0 -> 0` added first and pops the
     * shared adjacency list. On a graph without vertices graph.js throws.
     */
    method SetSourceEdges()
      requires Valid() && numVet >= 1
      modifies this`numEdg, this`listAdj, this`matAdj
      ensures Valid()
      ensures numEdg == old(numEdg) + |SourcePushes(old(matAdj[0]), subjectsOffered, Min(|teachers| + 1, numVet))|
      ensures listAdj == SourceList(old(listAdj), old(matAdj[0]), subjectsOffered, Min(|teachers| + 1, numVet))
      ensures matAdj == SourceMatrix(old(matAdj), subjectsOffered, Min(|teachers| + 1, numVet))
    {
      ghost var row := matAdj[0];
      var i := 0;
      while i < |teachers| + 1
        invariant 0 <= i <= |teachers| + 1
        invariant Valid()
        invariant numEdg == old(numEdg) + |SourcePushes(row, subjectsOffered, Min(i, numVet))|
        invariant listAdj == old(listAdj) + SourcePushes(row, subjectsOffered, Min(i, numVet))
        invariant matAdj == old(matAdj)[0 := SourceRow(row, subjectsOffered, Min(i, numVet))]
      {
        // The cell matAdj[0][i] is what graph.js passes as addEdge's source
        // vertex: 0 passes the bound check, while a [flow, capacity] pair (or
        // undefined past the row's end) compares as NaN and the call is refused.
        if i < numVet && matAdj[0][i] == None {
          AddEdge(0, i, SourceCap(subjectsOffered, i));
        }
        i := i + 1;
      }
      matAdj := SetCell(matAdj, 0, 0, None);
      listAdj := DropLast(listAdj);
    }

    /**
     * Adds `i -> numVet-1` for every subject vertex, taking the capacities
     * `subjectsData[k][2]` front to back and reusing the last one taken once
     * they run out.
     */
    method SetSinkEdges()
      requires Valid()
      modifies this`numEdg, this`listAdj, this`matAdj
      ensures Valid()
      ensures numEdg == old(numEdg) + SubjectCount(numVet, |teachers|)
      ensures matAdj == SinkStepMatrix(old(matAdj), FieldCaps(subjectsData), |teachers|, numVet)
      ensures listAdj == SinkStepList(old(listAdj), FieldCaps(subjectsData), |teachers|, numVet)
    {
      var subjectsCapacities := SubjectCapacities(subjectsData);
      AddSubjectEdges(|teachers|, subjectsCapacities);
    }

    /**
     * setSinkEdges' second loop, for `t` teachers and the capacity queue
     * `caps`: the inner `for ... of` takes the first remaining capacity, if
     * any, and breaks, so a vertex with the queue empty gets the capacity
     * taken last.
     */
    method AddSubjectEdges(t: nat, caps: seq<Cap>)
      requires Valid()
      modifies this`numEdg, this`listAdj, this`matAdj
      ensures Valid()
      ensures numEdg == old(numEdg) + SubjectCount(numVet, t)
      ensures matAdj == SinkStepMatrix(old(matAdj), caps, t, numVet)
      ensures listAdj == SinkStepList(old(listAdj), caps, t, numVet)
    {
      // numVet - 1; with no vertex at all the loop below does not run.
      var sink: nat := if numVet == 0 then 0 else numVet - 1;
      var subjectsCapacities := caps;
      var subjectCapacity := Null;
      var i: nat := t + 1;
      while i < numVet - 1
        invariant t + 1 <= i <= t + 1 + SubjectCount(numVet, t)
        invariant Valid()
        invariant subjectsCapacities == caps[Min(i - t - 1, |caps|)..]
        invariant subjectCapacity == if i == t + 1 then Null else SinkCap(caps, i - t - 2)
        invariant numEdg == old(numEdg) + (i - t - 1)
        invariant matAdj == SinkMatrix(old(matAdj), caps, t + 1, sink, i - t - 1)
        invariant listAdj == SinkPushes(old(listAdj), caps, sink, i - t - 1)
      {
        subjectsCapacities, subjectCapacity :=
          AddSubjectEdge(t + 1, i, sink, caps, subjectsCapacities, subjectCapacity, old(matAdj), old(listAdj));
        i := i + 1;
      }
      assert i - t - 1 == SubjectCount(numVet, t);
      SinkStepsAsCount(old(matAdj), old(listAdj), caps, t, numVet, sink);
    }

    /**
     * One pass of setSinkEdges' second loop, for subject vertex `i` of those
     * from `first` on: takes the next capacity from the queue (or keeps the
     * last one taken) and adds the edge `i -> sink` with it.
     */
    method AddSubjectEdge(first: nat, i: nat, sink: nat, caps: seq<Cap>, queue: seq<Cap>, last: Cap,
                          ghost m0: seq<seq<Cell>>, ghost l0: seq<Entry>)
        returns (rest: seq<Cap>, taken: Cap)
      requires Valid() && first <= i < sink < numVet
      requires queue == caps[Min(i - first, |caps|)..]
      requires last == if i == first then Null else SinkCap(caps, i - first - 1)
      requires matAdj == SinkMatrix(m0, caps, first, sink, i - first)
      requires listAdj == SinkPushes(l0, caps, sink, i - first)
      modifies this`numEdg, this`listAdj, this`matAdj
      ensures Valid()
      ensures rest == caps[Min(i + 1 - first, |caps|)..] && taken == SinkCap(caps, i - first)
      ensures numEdg == old(numEdg) + 1
      ensures matAdj == SinkMatrix(m0, caps, first, sink, i + 1 - first)
      ensures listAdj == SinkPushes(l0, caps, sink, i + 1 - first)
    {
      rest, taken := TakeCapacity(caps, i - first, queue, last);
      AddEdge(i, sink, taken);
    }

    /**
     * run after its two reads: the reads have filled teachers, subjectsOffered,
     * subjects, subjectsData and totalOfSubjects. Cleans the data, then builds
     * the network. graph.js throws when the network size is not a positive
     * number.
     */
    method Run()
      requires |subjectsData| > 0
      requires totalOfSubjects.Some? && 2 + |NonBlank(teachers)| + totalOfSubjects.value >= 1
      modifies this`teachers, this`subjects, this`numOfClasses, this`subjectsData
      modifies this`numVet, this`matAdj, this`listAdj, this`numEdg, this`teachersIndex, this`subjectsIndex
      ensures Valid()
      ensures teachers == NonBlank(old(teachers))
      ensures subjects == SpliceEmpties(NonBlankEach(old(subjects)))
      ensures subjectsData == old(subjectsData)[..|old(subjectsData)| - 1]
      ensures numOfClasses == TotalClasses(old(subjectsData)[|old(subjectsData)| - 1])
      ensures numVet == 2 + |teachers| + totalOfSubjects.value
      ensures teachersIndex == old(teachersIndex) + TeacherEntries(teachers, subjectsOffered, subjects, |teachers|)
      ensures subjectsIndex == old(subjectsIndex) +
        SubjectEntries(|teachers| + 1, subjects, Min(SubjectCount(numVet, |teachers|), |subjects|))
      ensures matAdj == Network(numVet, |teachers|, subjectsOffered, FieldCaps(subjectsData))
      ensures listAdj == NetworkList(numVet, |teachers|, subjectsOffered, FieldCaps(subjectsData))
      ensures numEdg == old(numEdg) + Min(|teachers| + 1, numVet) + SubjectCount(numVet, |teachers|)
    {
      CleanData();
      BuildNetwork();
    }

    /**
     * The part of run after cleanData: sizes a fresh network for
     * `2 + T + totalOfSubjects` vertices, indexes teachers and subjects, and
     * wires the source and sink edges.
     */
    method BuildNetwork()
      requires totalOfSubjects.Some? && 2 + |teachers| + totalOfSubjects.value >= 1
      modifies this`numVet, this`matAdj, this`listAdj, this`numEdg, this`teachersIndex, this`subjectsIndex
      ensures Valid()
      ensures numVet == 2 + |teachers| + totalOfSubjects.value
      ensures teachersIndex == old(teachersIndex) + TeacherEntries(teachers, subjectsOffered, subjects, |teachers|)
      ensures subjectsIndex == old(subjectsIndex) +
        SubjectEntries(|teachers| + 1, subjects, Min(SubjectCount(numVet, |teachers|), |subjects|))
      ensures matAdj == Network(numVet, |teachers|, subjectsOffered, FieldCaps(subjectsData))
      ensures listAdj == NetworkList(numVet, |teachers|, subjectsOffered, FieldCaps(subjectsData))
      ensures numEdg == old(numEdg) + Min(|teachers| + 1, numVet) + SubjectCount(numVet, |teachers|)
    {
      Resize(2 + |teachers| + totalOfSubjects.value);
      SetTeachersAndSubjectsIndexes();
      AddNetworkEdges();
    }

    /** setSourceEdges then setSinkEdges, on the fresh network run has just sized. */
    method AddNetworkEdges()
      requires numVet >= 1 && matAdj == EmptyMatrix(numVet) && listAdj == []
      modifies this`matAdj, this`listAdj, this`numEdg
      ensures Valid()
      ensures matAdj == Network(numVet, |teachers|, subjectsOffered, FieldCaps(subjectsData))
      ensures listAdj == NetworkList(numVet, |teachers|, subjectsOffered, FieldCaps(subjectsData))
      ensures numEdg == old(numEdg) + Min(|teachers| + 1, numVet) + SubjectCount(numVet, |teachers|)
    {
      FreshRowPushes(numVet, subjectsOffered, Min(|teachers| + 1, numVet));
      SetSourceEdges();
      SetSinkEdges();
    }
  }
}
