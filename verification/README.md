# A verified model of zote's core

This project models the parts of zote that carry its weight: the SQL object mapper of `zormsql` (the
condition compiler, the join planner, the row decoder, Get and Put), the AMQP consumer and its
delivery responses, the route tree of the HTTP server, and three smaller algorithms.
`dafny verify dfyconfig.toml` checks all of it.

Code that works step by step is modelled by methods and classes with loops and fields (the decoder
with its offsets and remembered keys, the visitors, the join and include-tree builders, Get and Put
over a database whose statements may fail, deliveries, the route trie); each is proved against a
function or a predicate, and the results below are proved about those. The consumer's goroutines are
a transition system.

## What is proved

**Row decoding** (`Decoder`, `Folding`, `Flattening`, `Hydration`, `Mirroring`, `SelectPlan`,
`Alignment`). A reference decoder extends the last model with the same key. The decoder of the code,
which keeps offsets and one remembered key per to-many relation across parents, gives the same
outcome on all rows, whatever keys it remembers at the start. Over the nested-loop LEFT JOIN rows of
any forest with distinct sibling keys, decoding gives the forest back if and only if, at every model,
no list of several children is repeated by rows of an earlier sibling relation; where at each node at
most one relation leads to a to-many relation, that is every forest. Where the roots come several
times, or again after others, there is one model for each run of rows, and the same holds for each
run's own length. For every structure at all, every loaded list holds exactly the true children of
its parent, with repetitions at most.

**Conditions** (`Sql`, `Clauses`, `WhereMeaning`, `WhereTheorems`, `WhereVisitors`, `Queries`,
`QueryReading`). A condition compiles if and only if its fields have columns and its lists of rows
fit; the visitor's text and values are those of a specification; the k-th mark gets the k-th value;
the bound text, parsed with the precedence of MySQL or SQLite, is the clause's own tree if and only
if the clause has no empty `And`/`Or`, no `In` over other than one column (unless its list is empty),
and no `contains` as the right side of a comparison that would regroup it; then it evaluates to the
clause's three-valued meaning on every row. A query leaves out a condition that compiles to nothing,
so as a whole condition an empty `And` means what it should and an empty `Or` does not. For the whole
query, marks and values are equally many if and only if no condition uses MySQL's `match`; its text,
from the columns to the outer joins, with the sorts' directions, limit and offset, reads as the
statement that the plan stands for if and only if every condition in it is sound or an empty `And`.

**Joins and the include tree** (`Planning`, `FieldPaths`, `Including`, `OuterJoins`). Each join
starts from the query's table or an earlier join; aliases are introduced once if and only if no two
relation lists in use share one and none has the query's own, which names without underscores
guarantee; then a compiled condition and compiled sorts read each column from one table. The same is
proved of the outer joins, whose conditions read as equal pairs and the relation's own condition if
and only if that is sound or an empty `And`. The include tree, extended in place, becomes the least
tree with the old entries and the relations of every path, and after a failure with some of them.

**Get and Put** (`Lookups`, `Finding`, `Writes`, `Repositories`, `Orphans`, `Cascades`, `Getting`).
Models are looked up by their first populated key, primary or unique. Counting the found rows is
enough: unless the database fails, Get succeeds if and only if every model has a key of one column
and of its own with a row, and then holds its own row, or the requested fields of it and nothing else
new; the condition for a key of several columns is one the database cannot read. Put updates the row
that the key names, or inserts one, in exactly the fields that are asked for and may be written. It
leaves a model without a primary key if and only if the model had none and its first populated unique
key names a row; models put with it then refer to no row. Otherwise a zero foreign key ends as the
key of the row it refers to, whatever keys the database generates, if and only if the related model's
primary key, if it has one, names a row or is inserted. A to-many Put of models known by their
primary keys or new leaves exactly their rows pointing to the parent, whichever page of ten rows the
database returns, if and only if their foreign keys are zero or the parent's and either no row has to
go or the rows in scope fit a page and can be deleted; only such strays are ever deleted. A cascading
Put writes what the model refers to, the model, and what refers to it, in that order, with the
foreign keys filled in and none overwritten.

**Messaging** (`Consumer`, `Deliveries`) and **routing** (`Paths`, `Routes`, `Routing`): conservation
of messages and distinct worker ids in every reachable state, full use of the workers, restarts,
graceful shutdown, what a return leaves behind, no deadlock but for a consumer without workers that
was sent a delivery, and a crash if and only if a worker panics after `restart` is closed or a
restart is pending then; a message is never lost, answered once, counts its attempts, and its copies
read as it did exactly if it was not compressed, or not to any effect; the greedy walk serves exactly
the key chosen static-first at each part, and what was mounted last with the parameter in its braces.

**Smaller cores** (`Sorting`, `Timestamps`, `Paging`): the multi-key comparison is a strict weak
order and relations are sorted by it at every depth; timestamps survive a round trip if and only if
their count of units is in the resolution's range; paging visits what one find of everything would if
and only if no model has rows on both sides of a page boundary up to the last page found and all rows
after that page are of its last model, which always holds where no model has several rows.

## Where the code and its comments differ

The model follows the code.

- The comment on orphan deletion (`go/zorm/zormsql/repo.go:513-515`) promises that the database
  matches the provided list. The code reads at most ten existing rows: `Orphans.PutSyncsExactlyWhen`
  says when the promise is kept, `Orphans.ElevenRows` gives inputs on which it is not.
- Put generates foreign keys from the models' primary keys (`go/zorm/zormsql/repo.go:311-345`), but an
  update by a unique key leaves the primary key zero: `Cascades.CompanyOnly` is such an account.
- An update that finds no row inserts under a new key when the requested fields leave the primary key
  out, although the model had one; its parent refers to the old key.
- `In` over several columns writes no commas between them, so its text does not parse, and a Get by a
  key of several columns never succeeds (`Finding.ReadExactlyWhen`).
- An empty `Or` means FALSE, but as a query's whole condition it selects every row
  (`Queries.EmptyOr`).
- Sibling to-many relations load duplicates.
- The copy of a compressed delivery is marked as not encoded, so it does not parse
  (`Deliveries.PublishedReads`).
- `FindAll` promises to visit all results (`go/zorm/find_all.go:8-34`), but pages are cut from joined
  rows, a model of several rows shortens its page, and a short page ends the search:
  `Paging.SecondModelMissed` is such a query.
- A sort by a to-many path can return a model twice (`Hydration.ComesBack`).
- A panic in `process` while the consumer shuts down sends on a closed channel and ends the process
  (`Consumer.LatePanicCrashes`).
- A page size of zero never ends `FindAll` unless a find fails.

## Model

| member | source | states |
|---|---|---|
| SelectPlan.LoadFields | go/zorm/zormsql/select_query_plan.go:512-525 | each named field is set from the target at its own offset, in order |
| SelectPlan.LoadStructure | go/zorm/zormsql/select_query_plan.go:509-600 | returns its start offset plus the structure's full width, and the object that the reference decoder loads, provided the remembered keys are those of the last children |
| SelectPlan.LoadRelations | go/zorm/zormsql/select_query_plan.go:529-597 | the relations are loaded in column order from consecutive offsets, skipped or not |
| SelectPlan.LoadRelation | go/zorm/zormsql/select_query_plan.go:552-595 | a null key skips the relation's whole width; otherwise the remembered key decides as the last loaded child's own key would |
| SelectPlan.Plan.Process | go/zorm/zormsql/select_query_plan.go:321-352 | over any rows and any remembered keys the list is the reference decoder's, and it fails exactly when that has more models than the list's capacity |
| SelectPlan.Plan.LoadNew | go/zorm/zormsql/select_query_plan.go:338-350 | a new root is a zero model loaded from the row, whatever keys the previous parent left |
| SelectPlan.Plan.LoadLast | go/zorm/zormsql/select_query_plan.go:338-344 | a row with the current key extends the last root |
| Alignment.MapStructure | go/zorm/zormsql/mapping.go:377-522 | a column and a scan target are appended for each field, both lists split after the key, at every depth |
| Alignment.FullColumnList | go/zorm/zormsql/primitives.go:76-88 | the columns of a structure and of its relations, in order |
| Alignment.FullTarget | go/zorm/zormsql/primitives.go:90-102 | the scan targets of a structure and of its relations, in order |
| Alignment.TargetsMatchColumns | go/zorm/zormsql/primitives.go:76-102 | columns and targets are as many as the structure is wide, and at each position are those of one field |
| Alignment.Aligned | go/zorm/zormsql/select_query_plan.go:509-600 | loading one row of the selected columns sets every field, at any depth, from its own column |
| Folding.LoadTwice | go/zorm/zormsql/select_query_plan.go:509-600 | loading the same row again changes nothing |
| Folding.FoldCross | go/zorm/zormsql/select_query_plan.go:529-597 | over a cross product of sibling rows, the first relation sees each of its rows repeated and the rest see their rows once per repetition |
| Flattening.FlatRows | go/zorm/zormsql/select_query_plan.go:606-730 | the LEFT JOIN rows of a stored model have the full width, agree with themselves, and carry its key; how often they come is a number of its own in the theorems on hydration |
| Hydration.HydrateModel | go/zorm/zormsql/select_query_plan.go:509-600 | a model whose rows occur n times in a row loads as itself exactly when it is exact for n |
| Hydration.DecodeForest | go/zorm/zormsql/select_query_plan.go:321-352 | decoding a forest's rows gives one decoded model per root, in order |
| Hydration.HydrationExactlyWhen | go/zorm/zormsql/select_query_plan.go:321-352 | decoding inverts flattening if and only if no list of several children is repeated by an earlier sibling's rows |
| Hydration.RepeatedHydrationExactlyWhen | go/zorm/zormsql/select_query_plan.go:321-352 | where each root's rows come some number of times in a row, and a root may come back after another, decoding inverts flattening if and only if each root is exact for its own number |
| Hydration.FoundExactlyWhen | go/zorm/zormsql/select_query_plan.go:321-352 | for any sequence of roots as the inner query's rows, a find makes one model of each run of them, and these are the roots of the runs if and only if each is exact for the length of its run |
| Hydration.ComesBack | go/zorm/zormsql/select_query_plan.go:331-350 | a root whose rows come back after another's is found twice |
| Mirroring.LinearHydration | go/zorm/zormsql/select_query_plan.go:509-600 | with at most one relation per node leading to a to-many relation, every forest is rebuilt exactly |
| Mirroring.HydrationMirrors | go/zorm/zormsql/select_query_plan.go:529-597 | for every structure, roots are exact in number, order and columns, and each loaded list holds exactly the true children, repetitions aside |
| WhereVisitors.WhereVisitor.Visit | go/zorm/zormsql/where_visitor.go:29-44 | compiles exactly the clauses all of whose fields have a column and whose lists of rows, where there are any, are as long as their left sides; the text and the values are those of the specification |
| WhereVisitors.WhereVisitor.VisitElement | go/zorm/zormsql/where_visitor.go:163-253 | appends an element's text and values, exactly if every field in it has a column |
| WhereVisitors.WhereVisitor.VisitTemplate | go/zorm/zormsql/where_visitor.go:198-233 | fills a method template's places one after another, first place first |
| WhereVisitors.WhereVisitor.VisitCall | go/zorm/zormsql/where_visitor.go:234-253 | a method without template is a call with its arguments separated by commas |
| WhereVisitors.WhereVisitor.VisitCompare | go/zorm/zormsql/where_visitor.go:46-60 | left, operator, right, with the values in that order, exactly if the fields of both sides have columns |
| WhereVisitors.WhereVisitor.VisitNot | go/zorm/zormsql/where_visitor.go:88-99 | NOT around the parenthesised clause |
| WhereVisitors.WhereVisitor.VisitIn | go/zorm/zormsql/where_visitor.go:109-157 | FALSE for no rows; else both sides, exactly if their fields have columns and each row is as long as the left side |
| WhereVisitors.WhereVisitor.VisitNode | go/zorm/zormsql/where_visitor.go:255-275 | nothing for no clauses, else the clauses joined and parenthesised, exactly if every clause compiles |
| Clauses.CompilesExactlyWhen | go/zorm/zormsql/where_visitor.go:29-275 | a clause compiles if and only if every field has a column and the rows of every In that has any fit its left side, whatever its operators, methods and numbers of children |
| WhereTheorems.ClauseInOrder | go/zorm/zormsql/where_visitor.go:46-275 | the values collected while visiting are those of the marks from left to right |
| WhereTheorems.BindErased | go/zorm/zormsql/where_visitor.go:163-167 | binding a text's values to its erased form, left to right, gives the text back |
| WhereTheorems.ParametersAgreeExactlyWhen | go/zorm/zormsql/where_visitor.go:198-253 | for every clause, there are as many marks as values if and only if MySQL's match is not used |
| WhereTheorems.MatchText | go/zsql/zmysql/zmysql.go:48-50 | MySQL's match of a field against a value is its template with the field filled in, a mark of its own, and the value's mark after it |
| WhereTheorems.CompiledExactlyWhen | go/zorm/zormsql/where_visitor.go:46-275 | the bound text parses to the clause's own tree if and only if the clause is sound |
| WhereTheorems.CompiledMeaning | go/zorm/zormsql/where_visitor.go:46-275 | a sound clause's condition has the clause's truth value on every row |
| WhereMeaning.ParseClause | go/zorm/zormsql/where_visitor.go:46-275 | in any context that ends the condition, the text parses to what the database makes of the clause, sound or not |
| Queries.ElemVisitor.Visit | go/zorm/zormsql/elem_visitor.go:25-76 | a column or a mark with its value, exactly for values and for fields that have a column; methods fail |
| Queries.VisitSort | go/zorm/zormsql/sort_visitor.go:18-47 | the element and its direction, exactly if it is a value or a field that has a column and the direction is a valid one |
| Queries.SortsCompileExactlyWhen | go/zorm/zormsql/select_query_plan.go:229-251 | all sorts compile if and only if each does |
| Queries.BalancedSorts | go/zorm/zormsql/sort_visitor.go:18-47 | sorts have a mark for each value, in order |
| Queries.QueryParameters | go/zorm/zormsql/select_query_plan.go:606-730 | across condition, sorts and join conditions there are as many marks as values if and only if no condition uses match, and the k-th mark gets its own value |
| Queries.QueryExactlyWhen | go/zorm/zormsql/select_query_plan.go:255-270 | the database reads a query's condition as the clause if and only if the clause is sound or an empty And |
| Queries.QuerySelects | go/zorm/zormsql/select_query_plan.go:255-270 | for those clauses the query selects exactly the rows on which the clause is true |
| Queries.EmptyOr | go/zorm/zormsql/select_query_plan.go:266-269 | an empty Or is false on every row, and as a query's condition selects every row |
| Queries.OnExactlyWhen | go/zorm/zormsql/select_query_plan.go:659-688 | a join's condition reads as its pairs and the relation's own condition if and only if that is sound or an empty And |
| Queries.OnSelects | go/zorm/zormsql/select_query_plan.go:659-688 | a joined row is then one whose columns are equal and on which the relation's condition is true |
| QueryReading.QueryReads | go/zorm/zormsql/select_query_plan.go:606-730 | the text that is sent, with its values, is read as the plan: the outer columns, the keys, the table, the inner joins, the condition, the sorts with their directions, limit and offset, and the outer joins, each condition as the database makes it out |
| QueryReading.ReadsExactlyWhen | go/zorm/zormsql/select_query_plan.go:606-730 | the whole query reads as the statement that the plan stands for, if and only if its condition and those of its joins are each sound or an empty And |
| OuterJoins.Visit | go/zorm/zormsql/select_query_plan.go:179-223 | a join for each relation, each followed by those of the relations below it |
| OuterJoins.OuterScoped | go/zorm/zormsql/select_query_plan.go:179-223 | every outer join starts from the root or from a relation that an earlier join introduces |
| OuterJoins.EdgesExactlyWhen | go/zorm/zormsql/mapping.go:377-522 | there is an outer join for each list of relations that leads somewhere in the structure, from the list before it, and no other |
| OuterJoins.OuterAliasesExactlyWhen | go/zorm/zormsql/mapping.go:465-480 | every alias of the outer query is introduced once if and only if no two relations share one and none is called as the inner query or the root |
| OuterJoins.AliasesAre | go/zorm/zormsql/select_query_plan.go:97-110 | the aliases of the outer query are inner, $ and the relation paths with underscores |
| OuterJoins.ColumnsAreJoined | go/zorm/zormsql/primitives.go:76-88 | every selected column is of the root or of a relation that is joined |
| Planning.MappingAt | go/zorm/zormsql/field_resolver.go:29-94 | the mapping a list of relations leads to is a known one |
| Planning.LeadsExactlyWhen | go/zorm/zormsql/field_resolver.go:39-91 | a list of relations leads to a mapping if and only if there is a way of known mappings to it, each leading to the next by its relation |
| Planning.PathParts | go/zorm/zormsql/field_resolver.go:29-37 | a path is its relations and its field with dots between them |
| Planning.JoinStep | go/zorm/zormsql/field_resolver.go:39-91 | one step of the walk reaches the next mapping and table, or fails where the relation or its mapping is missing, and keeps the joins complete for the lists so far |
| Planning.JoinPath | go/zorm/zormsql/select_query_plan.go:30-57 | succeeds exactly if the path's relations lead somewhere, and then has a join for each of their beginnings |
| Planning.BuildInnerJoins | go/zorm/zormsql/select_query_plan.go:21-63 | succeeds exactly if every path leads somewhere; then each relation list in use is joined, one join per pair of aliases, each from the start or from an earlier join |
| Planning.UsedExactlyWhen | go/zorm/zormsql/select_query_plan.go:21-63 | the lists in use are the non-empty beginnings of the paths' relations, and no others |
| Planning.JoinOfUsed | go/zorm/zormsql/select_query_plan.go:36-57 | where no two lists share an alias, each list in use has its join: from the table of the list before it to that of the mapping it leads to, on the columns of its last relation |
| Planning.StepOf | go/zorm/zormsql/select_query_plan.go:36-57 | every join is that of some list in use |
| Planning.AliasesUniqueExactlyWhen | go/zorm/zormsql/select_query_plan.go:21-63 | each alias is introduced once, by one join or as the query's own, if and only if no two relation lists in use share an alias and none has the query's own |
| Planning.UnderscoreFree | go/zorm/zormsql/field_resolver.go:42-43 | relation names without underscores never share an alias |
| Planning.UnderscoresClash | go/zorm/zormsql/field_resolver.go:42-43 | a relation A_B and a path through A and B do share one |
| Planning.ColumnIsJoined | go/zorm/zormsql/field_resolver.go:98-124 | the alias a path's column is read from is introduced by the path's own join and no other, and the column is the one its last mapping has for the field |
| FieldPaths.FieldPathExtractor.Visit | go/zorm/zormsql/field_path_extractor.go:19-107 | appends every path in the clause, in order |
| FieldPaths.FieldPathExtractor.VisitElement | go/zorm/zormsql/field_path_extractor.go:109-123 | appends a field's path and those in a method's arguments |
| FieldPaths.PathsAreMentioned | go/zorm/zormsql/field_path_extractor.go:37-123 | the paths are exactly the fields that stand anywhere in the clause |
| FieldPaths.ClauseReads | go/zorm/zormsql/field_path_extractor.go:37-123 | the compiled condition reads no column but those of the extracted paths |
| FieldPaths.ColumnsInScope | go/zorm/zormsql/select_query_plan.go:113-129 | every column of the compiled condition and of the compiled sorts is in the query's own table or in a joined one, and in only one of them if no alias is shared and none is the query's own |
| Including.Enter | go/zorm/zormsql/select_query_plan.go:78-88 | going on to a relation adds its entry and its map where missing, changes no other entry, and keeps the maps a tree |
| Including.EnsurePath | go/zorm/zormsql/select_query_plan.go:71-92 | a path adds exactly the beginnings of its relations, or fails where they lead nowhere, having added some of them and changed nothing else |
| Including.EnsureRelations | go/zorm/zormsql/select_query_plan.go:66-96 | the tree in place becomes the old one extended by the relation lists of the paths, new entries without settings; after a failure by some of them |
| Including.LeastTree | go/zorm/zormsql/select_query_plan.go:66-96 | that is the least tree with the old entries and the relations of every path; new entries ask for no fields, condition or order |
| Including.SamePathsSameTree | go/zorm/zormsql/select_query_plan.go:66-96 | it depends on neither the order nor the repetition of paths, and extending again changes nothing |
| Writes.KeyZeroExactlyWhen | go/zorm/zormsql/repo.go:415-456 | a put leaves the model without a primary key if and only if it had none and its first populated unique key names a row |
| Writes.KeyIsRowKey | go/zorm/zormsql/repo.go:415-456 | a model that has a primary key after a put has that of its row |
| Writes.WrittenFields | go/zorm/zormsql/mapping.go:219-273 | field by field: an update overwrites those that may be updated and are asked for, an insert takes those that may be inserted and are asked for, the others being zero but for the primary key; asked for are all, the named ones, or all but the excepted ones |
| Writes.RefusedExactlyWhen | go/zorm/zormsql/repo.go:415-456 | a put is refused if and only if a key is populated and either no updatable field is asked for, or no row has the key's values and one of its fields cannot be inserted |
| Writes.RefersExactlyWhen | go/zorm/zormsql/mapping.go:564-594 | whatever keys the database generates, a parent refers to the row of a related model that it was put with, if and only if the model's key fits the table before the put (no key of its own and no row by a unique key, or a primary key that names a row or is inserted) or the put is refused and has no outcome |
| Repositories.Database.Update | go/zorm/zormsql/repo.go:802-872 | overwrites exactly the fields that may be updated and are asked for, by name, by exception or all, of the one row with the values of a key, if there is one, and leaves every other field and row; fails without any such field; a failure changes nothing |
| Repositories.Database.Insert | go/zorm/zormsql/repo.go:748-800 | adds one row with exactly the fields that may be inserted and are asked for, the others zero, under the model's own primary key if those include it, else under a generated one that no row has; a failure changes nothing |
| Repositories.PutSingleModel | go/zorm/zormsql/repo.go:415-456 | updates the one row that the first populated key names, primary or unique, or inserts a row where none is named, with exactly the fields that are asked for and may be written, and no other row; only the primary key of the model may change, to that of an inserted row; unless the database fails, refused exactly if no field is updated or the named row is missing and its key cannot be inserted |
| Repositories.CopyFk | go/zorm/zormsql/mapping.go:564-594 | the key goes to the side with the foreign key, which is the model unless the relation is by its primary key, only where it is zero and the key is not; no other field changes |
| Repositories.DeleteOrphaned | go/zorm/zormsql/repo.go:516-577 | deletes exactly the rows of one page of the relation's scope whose keys are not provided: only rows that point to the parent, pass the relation's filter and have a primary key that no provided model has, at most ten, and all of those if at most ten rows point to the parent and pass the filter |
| Repositories.PutRelated | go/zorm/zormsql/repo.go:485-506 | puts the model with its foreign key; a parent holding the key then has the key the model is referred to by |
| Repositories.PutRelatedModels | go/zorm/zormsql/repo.go:458-511 | after the orphans of a page went, every model is put in turn with its foreign key; of the rows that no write touches only strays go, and only for a to-many relation, even if it fails on the way, and all strays if it does not and the scope fits a page; fields with values keep them; it fails only if the database does or the put of one of the models has to be refused as things then stand; the rows pointing to the parent are then the models' if their foreign keys fit and a page reaches, and only then for models known by primary key or new and a scope within a page |
| Orphans.RowsAfter | go/zorm/zormsql/repo.go:484-506 | after a list of writes, the rows with a value in a written field are those left alone that had it and those last written with it |
| Orphans.SyncExactlyWhen | go/zorm/zormsql/repo.go:458-577 | where the models' foreign keys are zero or the parent's, a put with some page syncs if and only if every row that pointed to the parent is one the page lets go or one that a model names |
| Orphans.MisfitBreaks | go/zorm/zormsql/repo.go:484-506 | where the last model's foreign key is another, it does not |
| Orphans.EveryPageExactlyWhen | go/zorm/zormsql/repo.go:606-629 | every page the database may return lets all rows go that no model names, if and only if there is none or the rows in scope are at most ten and all of them can be deleted |
| Orphans.KnownSyncExactlyWhen | go/zorm/zormsql/repo.go:458-577 | for models known by their primary keys or new, with some page: if and only if every foreign key is zero or the parent's and the page lets every other row go |
| Orphans.PutSyncsExactlyWhen | go/zorm/zormsql/repo.go:458-577 | for such models, over every page and every run of the put: the rows pointing to the parent are exactly the models', if and only if their foreign keys are zero or the parent's and no row has to go or the rows in scope fit a page and can be deleted |
| Orphans.ElevenRows | go/zorm/zormsql/repo.go:606-629 | with no model to keep and more than ten rows, all but ten still point to the parent |
| Cascades.Categorize | go/zorm/zormsql/mapping.go:155-200 | the relations are split by which side has the foreign key, in order |
| Cascades.SidesSplit | go/zorm/zormsql/mapping.go:155-200 | those joined on the model's primary key go to one side, all others to the other |
| Cascades.PutRelations | go/zorm/zormsql/repo.go:377-398 | the relations of one side are put in turn, with their writes in order; models only get fields filled in; what one relation filled stays |
| Cascades.PutReferring | go/zorm/zormsql/repo.go:380-390 | the model is put after those it refers to, with its row referring to them; it ends without a primary key if and only if it was known by a unique key alone, in terms of the state before the call where the relations before touch neither its table nor its unique keys |
| Cascades.Put | go/zorm/zormsql/repo.go:377-398 | the writes are those of the relations before, the model's own put with its row referring to them, and those of the relations after, whose models refer to its key; a relation before whose table and models no earlier one touches is a put on the state before the call; the model's table holds its row and a relation's own table its writes and all but strays of the rows before, and tables of neither are as they were, even after a failure; no field with a value is overwritten but a primary key; it fails only if the database does or a put of the model or of a related one has to be refused as things then stand |
| Cascades.ReferredField | go/zorm/zormsql/mapping.go:578-584 | a foreign key with a value stays; a zero one ends as the key the related model is referred to by |
| Cascades.RefersToWritten | go/zorm/zormsql/mapping.go:578-584 | a zero foreign key ends as the primary key of the related model's row, whatever keys the database generates, if and only if the model's key fits the table before it is put or the put is refused |
| Cascades.ReferredAsWas | go/zorm/zormsql/repo.go:377-390 | where no earlier relation touches the related model or its table, in terms of the state before the call: the parent's zero foreign key ends as the key of the model's row if the model's key fits, and stays zero if the model is known by a unique key alone |
| Cascades.RefersToParentExactlyWhen | go/zorm/zormsql/mapping.go:585-592 | a model put after its parent with a zero foreign key ends referring to the parent's row if and only if the parent was not known by a unique key alone before the call |
| Cascades.CompanyOnly | go/zorm/zormsql/repo.go:415-436 | an account put with the name of its company only is updated and keeps no primary key: a user that refers to it and its own users keep zero foreign keys |
| Cascades.ReferredUnlost | go/zorm/zormsql/mapping.go:578-584 | however far the relations were put, no field of the model with a value changed |
| Lookups.FirstIsAKey | go/zorm/zormsql/mapping.go:317-351 | a populated lookup key is one of the mapping's keys, with a value in each of its fields |
| Lookups.FirstIsFirst | go/zorm/zormsql/mapping.go:317-351 | it is the first key all of whose fields have values, with those values; there is none exactly if no key is such |
| Finding.ReadExactlyWhen | go/zorm/zormsql/repo.go:250-262 | the database can read the query for a group of keys if and only if the key has one column |
| Finding.SelectedByKey | go/zorm/zormsql/repo.go:250-262 | for a key of one column the condition is true on exactly the rows with one of the keys |
| Getting.GroupAll | go/zorm/zormsql/repo.go:220-243 | succeeds exactly if every model has a populated key; every key is then in the group of its kind, with a model it was taken from |
| Getting.AnswerIsAll | go/zorm/zormsql/repo.go:259-277 | the limit of one row per key never cuts an answer |
| Getting.AllNamedExactlyWhen | go/zorm/zormsql/repo.go:279-303 | as many rows as keys are found if and only if no key is repeated and every key has a row |
| Getting.LoadGroup | go/zorm/zormsql/repo.go:248-302 | each found row is loaded into the model of its key, in full or in the requested fields, and counted; no other model and no other field changes; with a key of other than one field it fails |
| Getting.LoadAll | go/zorm/zormsql/repo.go:245-303 | in any order of the groups, the rows found are as many as the models exactly if every group is complete; unless the database fails, it fails exactly if some group's key has other than one field |
| Getting.CompleteExactlyWhen | go/zorm/zormsql/repo.go:304-306 | the groups are of keys of one field and complete if and only if every model has such a key with a row and no two the same key |
| Getting.Get | go/zorm/zormsql/repo.go:195-309 | unless the database fails, succeeds if and only if every model's first populated key has one field, is its own and has a row; every model then holds what was asked for of its own row; where fields are requested, every other field of every model has the value it had, whether it succeeds or not |
| Consumer.StepConserves | go/zamqp/direct_consumer.go:106-169 | every step keeps each received message in exactly one place, and the busy counter right |
| Consumer.StepDistinctIds | go/zamqp/direct_consumer.go:142-156 | every step keeps live worker ids distinct, restarts included |
| Consumer.StepGraceful | go/zamqp/direct_consumer.go:106-169 | every step keeps all workers manned until the messages are drained, unless their context is cancelled |
| Consumer.StepPrefetched | go/zamqp/direct_consumer.go:172-184 | every step keeps the deliveries without an answer within the prefetch limit, those not yet processed among them |
| Consumer.CanDeliver | go/zamqp/direct_consumer.go:172-184 | in every reachable state with the input open, the dispatcher receiving and fewer deliveries without an answer than workers, any further one can be delivered |
| Consumer.FullUse | go/zamqp/direct_consumer.go:137-228 | a consumer of n workers can have n messages in its buffer, n different ones in process at once with none or all of them answered, and finish them all |
| Consumer.Restarts | go/zamqp/direct_consumer.go:142-156 | from any reachable state in which restart is open, a worker that panicked is up again under its id after at most three steps |
| Consumer.RunInv | go/zamqp/direct_consumer.go:39-170 | the invariant holds in every state of every run |
| Consumer.Conservation | go/zamqp/direct_consumer.go:186-228 | in every reachable state each received message is in exactly one place, live ids are distinct, and the busy counter counts the workers inside process, at most the concurrency |
| Consumer.GracefulShutdown | go/zamqp/direct_consumer.go:160-169 | if the worker context is never cancelled, Start returns only when every received delivery is finished, once |
| Consumer.ReturnLeaves | go/zamqp/direct_consumer.go:160-228 | whatever is cancelled, when Start returns every received delivery is finished, once, or left in the buffer without an answer, at most one a worker |
| Consumer.LeavesFullBuffer | go/zamqp/direct_consumer.go:160-228 | such a return with a full buffer, nothing of it answered, is possible for every number of workers |
| Consumer.ShutdownProgress | go/zamqp/direct_consumer.go:131-169 | once the input is closed every step brings the end nearer |
| Consumer.NeverStuck | go/zamqp/direct_consumer.go:131-184 | with the input closed and the context cancelled, the consumer has a step of its own until it returns, without a panic and before any answer, if and only if it is not one of no workers with a delivery in hand and all else ended |
| Consumer.CrashNeedsLateRestart | go/zamqp/direct_consumer.go:114-119 | with none pending while restart is open and no panic from then on, the process never crashes |
| Consumer.DoomedExactlyWhen | go/zamqp/direct_consumer.go:114-163 | at every moment of every run the process has crashed, or a worker is to send on the closed restart channel, if and only if a worker panicked after its closing or a restart was pending then |
| Consumer.CrashExactlyWhen | go/zamqp/direct_consumer.go:114-169 | no run crashes without such a late restart and none returns after one; a run that is over has crashed if and only if there was one, and returned if and only if there was none and it is not stuck |
| Consumer.ShutdownEnds | go/zamqp/direct_consumer.go:131-169 | from when the input is closed the consumer takes at most as many steps of its own as its weight then |
| Consumer.LatePanicCrashes | go/zamqp/direct_consumer.go:114-163 | a run of one worker and one delivery that crashes |
| Consumer.PendingPanicCrashes | go/zamqp/direct_consumer.go:114-163 | in a consumer of any number of workers, a panic in time whose restart is still pending at the closing can crash |
| Deliveries.NeverLost | go/zamqp/delivery.go:95-253 | over any calls with failures at any step, the broker holds the original, or a call settled it on request, or a copy is in the queue declared for it |
| Deliveries.AnsweredOnce | go/zamqp/delivery.go:95-111 | at most one call succeeds and none after it has an effect |
| Deliveries.RequeueOutcome | go/zamqp/delivery.go:233-253 | a requeue that succeeds has replaced the original by its copy; one that fails before the confirmation has not given the original up |
| Deliveries.ChainCounts | go/zamqp/message.go:141-154 | along any chain of requeues the attempt is the retries since the last fatal on top of 1, or of where it started, and other headers are kept |
| Deliveries.CopyReadsExactlyWhen | go/zamqp/delivery.go:46-83 | after any requeues a message reads as it did if and only if it cannot be parsed anyway, is not encoded, or is its own decompression |
| Deliveries.PublishedReads | go/zamqp/message.go:73-111 | a message reads as the content it was published with, and so do its copies if and only if it was not compressed or compressing it changed nothing |
| Deliveries.ReadExactlyWhen | go/zamqp/delivery.go:46-83 | only JSON is read, as it is or decompressed |
| Deliveries.Delivery.Answer | go/zamqp/delivery.go:95-111 | succeeds exactly if no call did before and nothing fails on its way, and is marked complete only then; an Ack or a Reject settles the original and touches nothing else |
| Deliveries.Delivery.RequeueMessage | go/zamqp/delivery.go:233-253 | declares the queue, publishes the copy to it, and only then rejects the original; succeeds exactly if each of these does |
| Deliveries.Delivery.PublishCopy | go/zamqp/publisher.go:44-89 | succeeds exactly if a channel was opened, the publish worked and the broker confirmed; the copy is then in the named queue; the original stays, and at most this copy is added |
| Deliveries.Delivery.FinalHeadersOf | go/zamqp/message.go:141-154 | the attempt is one more than the message says, or the second where it says none, for a retry, and the first for a fatal; every other header is kept |
| Deliveries.Delivery.RetryDelayed | go/zamqp/delivery.go:190-212 | succeeds exactly if nothing was answered before, nothing fails and the queue is not there with other arguments; then, after a confirmation, the original is gone and one copy of its content, on the next attempt, is in a queue that returns it to the original queue after the delay; a failure leaves it unanswered, and without a confirmation keeps the original |
| Deliveries.Delivery.FatalMessage | go/zamqp/delivery.go:214-231 | succeeds exactly if nothing was answered before, nothing fails and the queue is not there with other arguments; then, after a confirmation, the original is gone and one copy of its content, on the first attempt, is in the fatal queue; a failure leaves it unanswered, and without a confirmation keeps the original |
| Paths.SplitJoin | go/zapi/server.go:247 | splitting joined parts free of the separator gives them back |
| Paths.JoinSplit | go/zapi/server.go:247 | joining the pieces of a text gives the text back |
| Paths.PartsOfPath | go/zapi/server.go:246-247 | trimming and splitting a path of such parts gives them back, with any slashes around it |
| Paths.ParamExactlyWhen | go/zapi/server.go:283-302 | a part is a parameter if and only if it is a non-empty name without braces in braces |
| Routes.HandlerTree.Add | go/zapi/server.go:304-361 | succeeds exactly when the mount is allowed, and then adds exactly the route; a failed add leaves the tree unchanged |
| Routes.HandlerTree.MountRoot | go/zapi/server.go:308-313 | mounting the root drops whatever was mounted |
| Routes.HandlerTree.Descend | go/zapi/server.go:318-331 | finds the parent's handler exactly when it is mounted |
| Routes.HandlerTree.ServeHTTP | go/zapi/server.go:246-281 | the walk over the tree answers as the walk over the mounts |
| Routing.MountGrows | go/zapi/server.go:304-361 | successive mounts build a root and a parent for every other key |
| Routing.MountExactlyWhen | go/zapi/server.go:304-361 | below the root a template mounts if and only if its parent is mounted and it is not; its key then has the route and the name in braces at its end, and every other key is as it was |
| Routing.ServedExactlyWhen | go/zapi/server.go:246-281 | a route is found if and only if a mounted key is chosen static-first at each part, with its parents and its parameters in path order |
| Routing.RootServed | go/zapi/server.go:246-256 | a path of slashes reaches the root, without parents or parameters; without a root every request fails |
| Routing.TemplateReached | go/zapi/server.go:258-280 | every mounted template is reached by its path filled with non-empty, slash-free values that name no static sibling |
| Routing.MountedServes | go/zapi/server.go:258-361 | what was mounted last answers its path filled with values that name no static sibling, with its own route, and the parameter at its end has the last value |
| Routing.ReachedByOne | go/zapi/server.go:258-280 | at most one key reaches a request |
| Routing.MountKeepsOthers | go/zapi/server.go:304-361 | a further mount changes only requests that took a dynamic step where the new route is static |
| Sorting.CompareBySorts | go/zelement/zsort/zsort.go:64-100 | the first key that tells the models apart decides |
| Sorting.BeforeExactlyWhen | go/zelement/zsort/zsort.go:64-100 | one model comes before another if and only if in the first key in which they differ it has the lesser value, or the greater where the key is descending |
| Sorting.ValueExactlyWhen | go/zelement/zsort/zsort.go:113-187 | numbers are ordered as numbers, false before true, and text by its first difference, a beginning first |
| Sorting.ValueOrder | go/zelement/zsort/zsort.go:113-187 | comparing values of a kind is a total order with missing fields least |
| Sorting.StrictWeakOrder | go/zelement/zsort/zsort.go:64-100 | for every list of keys and directions the comparison is a strict weak order, and neither model comes first exactly when they are alike in the keys |
| Sorting.Apply | go/zelement/zsort/zsort.go:41-62 | a sorted permutation of the list |
| Sorting.SortRelations | go/zorm/zormsql/helpers.go:107-146 | every to-many list with a sort, at every depth, is a sorted permutation of itself, and nothing else changes |
| Sorting.SortedAtEveryDepth | go/zorm/zormsql/helpers.go:107-146 | a model reached by any route of relations and positions has its lists in order |
| Timestamps.Unix.String | go/ztime/unix.go:39-54 | the decimal text of the whole seconds, milliseconds, microseconds or nanoseconds up to an instant within 64 bits, and of zero for no resolution |
| Timestamps.Unix.UnmarshalJSON | go/ztime/unix.go:60-85 | accepts exactly the 64-bit numbers of at most 21 characters; resolution by length, instant by resolution; a failure changes nothing |
| Timestamps.ReadsNumbers | go/ztime/unix.go:61-64 | a number may have a sign and is read if it fits 64 bits |
| Timestamps.TextRoundTrip | go/ztime/unix.go:39-85 | printing what was parsed gives the canonical text of the same number |
| Timestamps.RestoredExactlyWhen | go/ztime/unix.go:66-82 | parsing a printed instant restores the resolution if and only if the count of units is in the resolution's range |
| Timestamps.InstantRoundTrip | go/ztime/unix.go:39-85 | from the billionth second to the 64-bit nanosecond limit, every resolution and the instant floored to it are restored |
| Paging.FindAll | go/zorm/find_all.go:8-34 | visits what is found at one offset after the other until a find answers with fewer models than a page, a find fails, or the callback refuses a model, which is the last visited |
| Paging.FindAllRows | go/zorm/find_all.go:8-34 | over pages of a query's rows, with one model for each run of rows of a page: without a failure all answers are visited, up to the first page of fewer models than its size; with a page size of zero only a failing find ends it |
| Paging.VisitedExactlyWhen | go/zorm/find_all.go:13-33 | the pages visit what one find of all rows would, if and only if no model has rows on both sides of a boundary up to the last page found and all rows after that page are of its last model |
| Paging.EachOnceExactlyWhen | go/zorm/find_all.go:13-33 | where the rows of each model are next to each other, every model is visited and none twice under the same condition |
| Paging.NoRepeatFits | go/zorm/find_all.go:13-33 | rows without a repeat meet it: all are visited in order, with one find more than there are full pages |
| Paging.SecondModelMissed | go/zorm/find_all.go:27-29 | a model with two rows and another in pages of two: the second is never visited; in pages of one the first is visited twice |

## Left out

- SelectPlan.Plan.Process: objects are values with one list per relation, so sharing between loaded objects is not in the model; scan and JSON errors are not either, and sorting the relations afterwards is `Sorting.SortRelations`.
- Alignment.MapStructure: the nullable scan types and their conversion are not modelled; a NULL is the zero value; unmapped fields, on which it fails, and aliases are left out.
- WhereTheorems.CompiledExactlyWhen: requires `contains` to have its two arguments and no MySQL `match`, whose template holds a mark of its own; the code supports neither.
- QueryReading.ReadsExactlyWhen: requires the same of every condition of the query, a column, a key and a pair of columns for each join.
- WhereTheorems.CompiledMeaning: string collation and column types are not modelled; functions are uninterpreted.
- Queries.QueryParameters: identifiers are tokens; escaping and whitespace are not modelled.
- QueryReading.QueryReads: how the mapping's key columns, the structure and the joins become the parts of the plan is proved part by part (`Alignment`, `OuterJoins`, `Planning`), not as one function.
- Including.EnsureRelations: the tree of maps may not share maps between two places.
- Repositories.PutSingleModel: primary keys have one column; the database is taken to be unique in every key of a mapping, as an update of several rows fails in the code; NULL and zero are one value, so a row may lack a primary key.
- Repositories.Database.Insert: a row inserted under its own key keeps it; the code copies any last insert id over it, which matters for text keys on SQLite.
- Repositories.PutRelatedModels: relations join on one column; a parent is not among its own related models; a to-many relation is joined on the parent's primary key, its foreign key being on the related model as the code's own comment says; when the rows are synced is stated for lists that hold no object twice.
- Repositories.CopyFk: one pair of columns.
- Orphans.SyncExactlyWhen: requires the foreign key to be among the fields that both inserts and updates write, and a relation filter without dotted paths, whose joins would repeat rows on a page.
- Orphans.PutSyncsExactlyWhen: is stated for models known by their primary keys or new; its runs include writes that break another unique key, which the database refuses.
- Cascades.Put: the Get that follows, and the loop over several models, are not part of it.
- Getting.Get: requires keys that the database keeps unique; included relations and negated field lists are not modelled, nor the branch for a row under an unknown key, which the query rules out; a condition over several columns fails as one the database cannot read, whatever the driver says of it.
- Consumer.Conservation: connection errors, declarations, stats and logging are not modelled; a processed message may do anything with its delivery.
- Deliveries.NeverLost: calls on one delivery are one after another, as the lock makes them; dead-letter expiry is in the declared arguments only.
- Deliveries.Delivery.RetryDelayed: the textual form of a duration is a parameter.
- Routes.HandlerTree.ServeHTTP: middleware, authorisation, methods and responses are not modelled.
- Sorting.Apply: an insertion sort stands for the library's sort; sort elements that are not fields, on which the code panics, are not modelled, nor is NaN.
- Timestamps.Unix.String: instants are nanoseconds since the epoch; zones and the seconds beyond 64 bits are not modelled.
- Paging.FindAllRows: requires a result that does not change between pages, and for a page size of zero some find that fails; the order of rows under the outer joins is taken to be that of the inner query.
- Paging.FindAll: requires that some find fails or answers with less than a page, without which it does not end.
- Drivers, reflection, JSON encoding, the AMQP wire, transactions, Delete, caching, HTTP bodies, commands, configuration and infrastructure are not modelled.
