# Graph: the teacher/subject flow network of graph.js

This project models the `Graph` class of `graph.js`. The class holds a flow
network for assigning teachers to subjects. Vertex 0 is the source. Vertices
`1 .. T` are the T teachers. Vertices `T+1 .. numVet-2` are the subjects, and
vertex `numVet-1` is the sink. The class has:

- a dense `numVet x numVet` matrix `matAdj`, where a cell is the number 0 or a
  `[flow, capacity]` pair;
- an adjacency list `listAdj`;
- an edge counter `numEdg`;
- the steps that turn the loaded CSV data into the network.

Three files, one module each:

- `jsvalues.dfy` (`JsValues`) holds the JavaScript values the class relies
  on. It models reading a list past its end (undefined) and the built-in
  `parseInt` on a CSV field.
- `graph_spec.dfy` (`GraphSpec`) holds the data model and a pure function for
  what each construction step produces. Next to each function are the lemmas
  that say what that result contains.
- `graph.dfy` (`GraphImpl`) holds the class `Graph`. Its methods change the
  fields step by step, as graph.js does, and each method is proved against
  the functions of `GraphSpec`.

Points where the model follows the code:

- **Shared list.** graph.js fills every slot of `listAdj` with one and the
  same empty array, so `listAdj` is one shared sequence. A push through any
  vertex lands in it, and the pop in setSourceEdges removes the last entry
  pushed overall.
- **Capacities.** A capacity is kept as the value graph.js passes:
  - the number 0 for the source's self-loop;
  - a CSV string;
  - `null`;
  - `Infinity`, addEdge's default, which also applies whenever the argument
    is undefined.
  Nothing converts a capacity to a number.
- **Source argument.** setSourceEdges passes the cell `matAdj[0][i]` as
  addEdge's source vertex. A cell holding 0 is vertex 0. A cell holding a
  pair compares as NaN, so addEdge refuses the call.
- **Empty subject lists.** cleanData splices empty subject lists out of the
  list it is iterating over. The list that moves into the freed slot is never
  visited, so in each run of adjacent empty lists the loop removes the 1st,
  3rd, 5th, ... list and keeps the others (`SpliceEmpties`).
- **Capacity queue.** setSinkEdges takes capacities from the front of the
  queue. Once the queue is empty, each further subject vertex gets the
  capacity taken last, or `null` if none was ever taken.
- **Edge counter.** removeEdge lowers `numEdg` even when the cell held no
  edge. It leaves `listAdj` alone, because its `forEach` callback's result is
  discarded.
- **Thrown errors.** Three operations throw in graph.js, and each becomes a
  `requires`:
  - run when the vertex count is not a positive number;
  - setSourceEdges on a graph without vertices;
  - cleanData on empty subject data.

## Model

| member | source | states |
|---|---|---|
| GraphImpl.Graph.constructor | graph.js:6-31 | A new graph of `numVet` vertices has the all-zero square matrix, an empty shared list, `numEdg` as given, empty indexes and lists, `numOfClasses` 0 and `totalOfSubjects` undefined |
| GraphImpl.Graph.Reset | graph.js:41-64 | Rebuilds the all-zero matrix and the empty shared list, and sets `numVet`/`numEdg`. Clears both indexes, edgesList, awayTeachers and subjectsData, sets `numOfClasses` and `totalOfSubjects` to 0, and keeps teachers, subjects and subjectsOffered |
| GraphImpl.Graph.Resize | graph.js:256-258 | Gives the graph `n` vertices, an all-zero `n x n` matrix and an empty shared list |
| GraphImpl.Graph.AddEdge | graph.js:74-82 | With both vertices in range: the cell becomes `[flow, capacity]` (overwriting), a copy is pushed on the shared list and `numEdg` grows by one. Otherwise nothing changes |
| GraphImpl.Graph.RemoveEdge | graph.js:90-104 | With both vertices in range: the cell becomes 0 and `numEdg` drops by one, edge or no edge, and the list is untouched. Otherwise nothing changes |
| GraphImpl.Graph.SetEdgesList | graph.js:109-118 | Appends `Listing` of the matrix to edgesList, after the triples already there |
| GraphSpec.ListingMembers | graph.js:109-118 | A triple is listed if and only if it names a non-zero cell and carries that cell's flow |
| GraphSpec.RowListingMembers | graph.js:111-116 | Within one row, a triple is listed if and only if it names a non-zero cell of that row |
| GraphSpec.ListingOrdered | graph.js:109-118 | The listing is in strict row-major order, so no cell is listed twice |
| GraphSpec.RowListingOrdered | graph.js:111-116 | A row's triples all lie in that row, left to right |
| GraphImpl.Graph.CleanData | graph.js:164-185 | teachers keeps the non-blank names; each subject list loses its blank ids and the loop splices empty lists; subjectsData loses its last record; numOfClasses is parseInt of that record's first non-blank field |
| GraphImpl.SpliceEmptyLists | graph.js:172-176 | The splice-while-iterating loop leaves exactly `SpliceEmpties` of its input |
| GraphSpec.NonBlank | graph.js:166-168 | A name survives the filter if and only if it was there and is not blank; the list never grows |
| GraphSpec.NonBlankAppend | graph.js:166-168 | Filtering a concatenation filters each part in order |
| GraphSpec.NonBlankIdempotent | graph.js:166-168 | Filtering twice keeps what filtering once keeps |
| GraphSpec.NonBlankKeepsFilled | graph.js:166-168 | A list with no blank name passes the filter unchanged |
| GraphSpec.SpliceAtEmpty | graph.js:173-175 | Splicing an empty list at the visited position keeps the loop's remaining result unchanged and skips the successor |
| GraphSpec.SpliceAtFilled | graph.js:172-173 | Visiting a non-empty list keeps it and moves on |
| GraphSpec.SpliceEmptiesKeepsNonEmpty | graph.js:172-176 | The loop removes only empty lists: every non-empty list survives, in order |
| GraphSpec.SpliceEmptiesWithoutAdjacent | graph.js:172-176 | With no two empty lists adjacent, the loop removes every empty list |
| GraphSpec.SpliceEmptiesKeepsSecondOfPair | graph.js:172-176 | When every list before them is non-empty, of two adjacent empty lists the loop removes the first and keeps the second |
| GraphSpec.FirstNonBlank | graph.js:178 | The index found is the first non-blank field: all earlier fields are blank |
| JsValues.DigitRun | graph.js:179 | parseInt reads the longest run of leading decimal digits |
| JsValues.ParseIntDecimal | graph.js:179 | parseInt reads back any integer written in decimal, with or without a minus sign |
| JsValues.ParseIntStopsAtNonDigit | graph.js:179 | parseInt stops at the first character that is not a digit |
| GraphImpl.Graph.SetTeachersAndSubjectsIndexes | graph.js:190-204 | teachersIndex gains the teacher entries for vertices `1 .. T`; subjectsIndex gains the subject lists, in order, for the subject vertices while lists remain |
| GraphSpec.TeacherEntriesLookup | graph.js:191-193 | Among the entries setTeachersAndSubjectsIndexes adds to teachersIndex, vertex `v` has one if and only if `1 <= v <= T`, and it holds teacher `v-1`'s name, offer and subjects (undefined past their end) |
| GraphSpec.SubjectEntriesLookup | graph.js:195-203 | Among the entries setTeachersAndSubjectsIndexes adds to subjectsIndex, vertex `v` has one if and only if it is one of the first `n` subject vertices, and it holds subject list `v-T-1` |
| GraphImpl.Graph.SetSourceEdges | graph.js:209-221 | numEdg grows by the number of pushes; the matrix becomes `SourceMatrix` of the old one and the shared list `SourceList` of the old one |
| GraphSpec.SourceRow | graph.js:213-217 | In row 0, each visited vertex whose cell was 0 gets `[0, capacity]`; every other cell keeps its value |
| GraphSpec.SourceMatrixCells | graph.js:213-219 | After setSourceEdges the self-loop is 0, each visited vertex with a zero cell has its source edge, and no other cell changes |
| GraphSpec.SourcePushesOnEmptyRow | graph.js:213-217 | On a row of zeros every visited vertex pushes one entry, in vertex order, with its capacity |
| GraphSpec.FreshRowPushes | graph.js:213-217 | On a fresh matrix, setSourceEdges pushes one entry per visited vertex, the self-loop included |
| GraphSpec.SourceEdgesLoseLastTeacher | graph.js:216-220 | The final pop removes the last teacher's entry, not the cleared self-loop's, which stays first |
| GraphSpec.SourceListOnEmptyRow | graph.js:213-220 | From an empty list and a zero row, the list holds the entries of vertices `0 .. hi-2`, in order |
| GraphImpl.Graph.SetSinkEdges | graph.js:226-244 | numEdg grows by the number of subject vertices; the matrix becomes `SinkStepMatrix` of the old one and the list `SinkStepList` of the old one |
| GraphImpl.SubjectCapacities | graph.js:228-233 | The queue holds each record's third field in record order (`FieldCaps`) |
| GraphSpec.FieldCaps | graph.js:231-233 | One capacity per record, in record order; a record without a third field gives addEdge's default |
| GraphImpl.Graph.AddSubjectEdges | graph.js:235-243 | Each subject vertex in turn gets its edge to the sink with the capacity taken from the queue; the loop keeps the queue and the last capacity in step with `SinkCap` |
| GraphImpl.Graph.AddSubjectEdge | graph.js:236-242 | One pass for vertex `i`: the next capacity (or the last one again) is handed out, numEdg grows by one, and the matrix and list gain vertex `i`'s sink edge and entry |
| GraphImpl.TakeCapacity | graph.js:237-241 | With `n` capacities handed out, one pass of the inner loop takes the n-th capacity of the queue discipline (`SinkCap`: the record's own, else the last one taken, else `null`) and leaves the queue holding the capacities after it |
| GraphSpec.SinkCapTaken | graph.js:237-241 | Taking from the queue hands out the next capacity in order, or the last one taken once the queue is empty |
| GraphSpec.SinkPushesContents | graph.js:235-243 | The list keeps its entries in front and gains one entry per subject vertex, all pointing at the sink, with the capacities in order |
| GraphSpec.SinkMatrixCells | graph.js:235-243 | Each subject vertex's cell in the sink column gets its capacity in order; no other cell changes |
| GraphSpec.SinkStepCells | graph.js:226-244 | After setSinkEdges each subject vertex `T+1 .. numVet-2` has its sink edge and no other cell changes |
| GraphSpec.SinkStepListContents | graph.js:226-244 | After setSinkEdges the list holds its old entries, then one sink entry per subject vertex |
| GraphSpec.SinkCapsOnePerVertex | graph.js:231-243 | With one record per subject vertex, each vertex gets its own record's capacity: none is reused or skipped |
| GraphImpl.Graph.Run | graph.js:254-262 | After cleanData, numVet is `2 + T + totalOfSubjects`, both indexes are filled, and the matrix, list and counter are those of `Network`/`NetworkList` |
| GraphImpl.Graph.BuildNetwork | graph.js:256-262 | Sizes the fresh network, fills both indexes and adds the source and sink edges |
| GraphImpl.Graph.AddNetworkEdges | graph.js:261-262 | On a fresh network, setSourceEdges then setSinkEdges give `Network` and `NetworkList`, and numEdg grows by `min(T+1, numVet)` plus one per subject vertex |
| GraphSpec.NetworkCells | graph.js:256-262 | The network has exactly the source edges `0 -> 1..T` (self-loop cleared) and the subject-to-sink edges, and no other edge |
| GraphSpec.NetworkListContents | graph.js:256-262 | The shared list holds the entries of vertices `0 .. T-1` of row 0 (the last teacher's popped), then one sink entry per subject vertex |
| GraphSpec.EmptyMatrix | graph.js:11 | A fresh matrix is square with every cell 0 |
| GraphSpec.SetCellCells | graph.js:76 | Writing a cell keeps the matrix square and changes that cell only |

## Left out

- readTeachers and readSubjects (graph.js:125-159) read CSV files through an asynchronous stream parser. The model takes what they fill in as given field values: teachers, subjectsOffered, subjects, subjectsData and totalOfSubjects.
- Console output (console.error in addEdge and removeEdge, console.log in the readers) is not modelled; an out-of-range edge only leaves the graph unchanged.
- The constructor and reset with a caller-supplied matrix or list are not modelled; only the default (null) arguments are.
- The matrix is a sequence of rows that the methods reassign. Rows updated in place, and any aliasing of a caller's matrix, are not captured.
- parseInt is modelled for an optional sign followed by decimal digits. Leading whitespace and the `0x` prefix are not modelled.
- JsValues.ParseInt returns an exact integer, while JavaScript's parseInt returns a floating-point number: a digit run beyond 2^53 is rounded there, and "-0" gives negative zero. Neither is modelled.
- setTeachersToSubjectsEdges (graph.js:247-249) has an empty body, so there is nothing to model. There is no max-flow algorithm in graph.js.
- Vertices are natural numbers. Negative and fractional indices, and JavaScript loose equality on other kinds of values, are not modelled.
- GraphImpl.Graph.Run: the two file reads at its start are left to the caller, as above.
- GraphImpl.Graph.Run, GraphImpl.Graph.BuildNetwork: graph.js throws when the vertex count is not a positive number (undefined or negative totalOfSubjects, or no vertex for setSourceEdges to read row 0 from); the model requires a positive count instead of modelling the exception.
- GraphImpl.Graph.SetSourceEdges: graph.js throws on a graph without vertices, since row 0 does not exist; the model requires at least one vertex instead.
- GraphImpl.Graph.CleanData: graph.js throws on empty subject data, since pop yields undefined; the model requires a record to pop instead.
