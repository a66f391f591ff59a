# KStars star-block pool, cfitsio unsigned-long writers, sky-object list model

This project models, in Dafny, three pieces of KStars and proves their properties:

- **The star-block pool** (`StarBlockFactory`, `starblock_factory.dfy` over
  `recency_list.dfy`). The pool hands out star blocks up to a budget. It keeps the
  blocks it tracks on a doubly-linked recency list, with `first` the most recently
  confirmed and `last` the least. It stamps each confirmed block with the current
  draw id, and frees stale blocks from the tail.
  - Blocks live in a map from stable ids, and every pointer is a link into that map.
  - Each statement of the C++ pointer surgery is one map update that reads the
    current state, so aliasing behaves as in the C++.
  - `Represents(f, L)` ties a pool state to the list of ids `L` its links encode:
    - each listed block's `prev`/`next` point to its neighbours in `L`;
    - `first` and `last` are the ends of `L`;
    - every unlisted block is detached;
    - `nBlocks` counts the arena.
  - The operations are proved against pure list operations (`MoveToFront`,
    `MoveAfter`, dropping a suffix) in `RecencyList`.
- **cfitsio's writers for `unsigned long` data** (`putcoluj.c`):
  - `ffpcluj` cuts the input into chunks and converts each chunk to the column type
    (`FitsColumn`, `FitsConvert`);
  - `ffpcnuj` splits the input into runs of good and null values and locates each
    run as a (row, element) pair (`FitsNulls`);
  - `ffppruj`, `ffppnuj`, `ffp2duj`, `ffp3duj` and `ffpssuj` compute where each
    image row goes (`FitsImage`).

  The writes are returned as lists of commands instead of being performed. Each
  plan is proved to cover its input exactly once and in order. `unsigned long` is
  64 bits wide, as on LP64 platforms.
- **The object-search list model** (`SkyObjectList`): an ordered list of
  (name, object) pairs, with first-match lookup by name, filtering by name, and
  data access by role.

The status codes follow cfitsio's `fitsio.h`, which is not part of this model:

| code | value |
|---|---|
| OVERFLOW_ERR | -11 |
| NUM_OVERFLOW | 412 |
| BAD_DIMEN | 320 |
| BAD_ATABLE_FORMAT | 311 |
| BAD_BTABLE_FORMAT | 312 |

The pool's budget DEFAULT_NCACHE is 12, as defined at
`kstars/skycomponents/starblockfactory.cpp:26`.

Some behaviours of the pool follow from the code and are easy to miss:

- **Allocate two blocks, confirm only the first, then request a third in a later
  frame.** The block recycled is the first one. getBlock never links a block, and the
  second block was never confirmed, so the tail of the list is the first block.
  `RecycleRun` proves this run, and `PastBudgetRun` proves the variant where the
  tail is still fresh and a block is allocated past the budget.
- **markNext's "only block" rejection** (`block == first && block->next == nullptr`)
  cannot fire once the anchor is on the list. `MarkNextPlaces` proves that every
  such call succeeds. With a detached anchor it can fire, and `MarkNext` states
  the exact condition under which a call is rejected.
- **markNext with an anchor that is not on the list** is accepted and breaks the
  list. With the list [0, 1] and a detached block 2, `markNext(2, 1)` returns true.
  Block 1 is cut off after block 0, and block 2 points at it while `first` and `last`
  are both block 0. `DetachedAnchorRun` proves that the result encodes no list.
- **`deleteBlocks(n)` with a negative `n`** frees every block, because `i != n` never
  becomes false.
- **freeUnused's `i != nBlocks` guard** never stops its loop early, because the list
  never holds more than `nBlocks` blocks.

## Model

| member | source | states |
|---|---|---|
| StarBlockFactory.NewFactory | kstars/skycomponents/starblockfactory.cpp:37-44 | The new pool represents the empty recency list, holds no blocks, starts at draw id 0 and has the budget DEFAULT_NCACHE (12). |
| StarBlockFactory.GetBlock | kstars/skycomponents/starblockfactory.cpp:53-90 | The block handed out is always detached. The draw id and budget are unchanged, and the pool grows by at most one block. Under budget it is a fresh block in the next slot. If the pool did not grow, the block was the tail. |
| StarBlockFactory.GetBlockSpec | kstars/skycomponents/starblockfactory.cpp:53-90 | On a consistent pool at budget whose tail is stale or never drawn, getBlock recycles the tail: the list loses its last block, the pool keeps its size and ids, and every other block keeps its stamp and magnitude. Otherwise it allocates a new id, the pool grows by one, the list is unchanged and every existing block is untouched. |
| StarBlockFactory.GetBlockAllocates | kstars/skycomponents/starblockfactory.cpp:57-64 | The allocating branches (under budget, and past the budget at lines 86-89) add one fresh detached id, keep the list representation, and leave every existing block exactly as it was. |
| StarBlockFactory.MarkFirst | kstars/skycomponents/starblockfactory.cpp:92-130 | The call succeeds exactly when the block is non-null; a null block leaves the pool untouched. On success the block is first and stamped with the current draw id. The set of blocks, the block count and the draw id are unchanged, and no ordering warning is raised. |
| StarBlockFactory.MarkFirstMovesToFront | kstars/skycomponents/starblockfactory.cpp:92-130 | For any block of a consistent pool (linked, detached, already first, or on an empty list) markFirst moves it to the front, keeps the other blocks in order, and changes nothing but the links and the block's stamp. |
| StarBlockFactory.MarkNext | kstars/skycomponents/starblockfactory.cpp:132-195 | markNext succeeds exactly when both arguments are non-null, the list is non-empty, `after != block`, and the block is either already behind `after` or is not the first block without a successor (the rejection at lines 159-165). A rejection leaves the pool untouched. On success the block's `prev` is `after` and it carries the current draw id. A block already behind `after` is only restamped (lines 153-157). The faint-magnitude warning is raised exactly when a real move puts a block behind an anchor with fainter stars, unless the block is empty. |
| StarBlockFactory.MarkNextPlaces | kstars/skycomponents/starblockfactory.cpp:132-195 | With the anchor on the list and any other block of the pool, markNext succeeds. It places the block directly behind the anchor, keeps every other block in order, and only restamps the moved block. |
| StarBlockFactory.DetachedAnchorRun | kstars/skycomponents/starblockfactory.cpp:175-194 | With the list [0, 1] and a detached anchor 2, markNext(2, 1) returns true without a warning, but leaves `first == last == 0`, block 1 behind block 2, and links that encode no list at all. |
| StarBlockFactory.MoveBehind | kstars/skycomponents/starblockfactory.cpp:175-194 | The relinking keeps the set of blocks, the block count and the draw id, and leaves the moved block with `prev` equal to the anchor and stamped with the current draw id. |
| StarBlockFactory.DropCount | kstars/skycomponents/starblockfactory.cpp:246-256 | The loop of deleteBlocks removes min(n, list length) tail blocks, or all of them when n is negative. The remaining arena is the original minus that suffix, and `last` is the block before it (null when all are gone). |
| StarBlockFactory.DeleteBlocks | kstars/skycomponents/starblockfactory.cpp:244-265 | The returned count is n clamped to the list length (the whole list for negative n). The pool then represents the list without that many tail blocks, and exactly their ids leave the arena. The survivors keep their stamps and nBlocks drops by the count. |
| StarBlockFactory.DropStale | kstars/skycomponents/starblockfactory.cpp:299-309 | The loop of freeUnused removes the longest suffix of tail blocks drawn before the current frame, and stops at the first block that is not older. |
| StarBlockFactory.FreeUnused | kstars/skycomponents/starblockfactory.cpp:297-318 | Exactly the maximal suffix of stale blocks is freed: every freed block is older than the current frame and the block before them is not. The pool represents the remaining prefix and nBlocks drops by the count. |
| StarBlockFactory.PastBudgetRun | kstars/skycomponents/starblockfactory.cpp:53-130 | A budget-2 run with the first block confirmed in the current frame: the third request allocates past the budget, and the list holds only the first block. |
| StarBlockFactory.RecycleRun | kstars/skycomponents/starblockfactory.cpp:53-130 | The same run with the confirmation in an earlier frame: the third request recycles the first block and leaves the list empty. |
| RecencyList.MoveToFrontOrder | kstars/skycomponents/starblockfactory.cpp:113-129 | On the list level, moving to the front puts the block first, keeps the list free of duplicates, and leaves the other blocks in their order. |
| RecencyList.MoveAfterOrder | kstars/skycomponents/starblockfactory.cpp:175-194 | On the list level, moving behind an anchor puts the block immediately after it, keeps the list duplicate-free, and leaves the other blocks in their order. |
| SkyObjectList.FindSpec | kstars/auxiliary/skyobjectlistmodel.cpp:32-42 | The reference lookup gives -1 exactly when no entry has the name, and otherwise the first position that has it. |
| SkyObjectList.IndexOf | kstars/auxiliary/skyobjectlistmodel.cpp:32-42 | The result is -1 exactly when no entry carries the name. Otherwise the entry there has the name, and no earlier entry does. |
| SkyObjectList.IndexOfIsFind | kstars/auxiliary/skyobjectlistmodel.cpp:32-42 | Any result meeting indexOf's contract equals the reference lookup, so the contract determines the answer. |
| SkyObjectList.Filter | kstars/auxiliary/skyobjectlistmodel.cpp:61-72 | The result is the reference list of matching names in list order. Every name in it matches, and it is no longer than the list. |
| SkyObjectList.MatchingAppend | kstars/auxiliary/skyobjectlistmodel.cpp:61-72 | Filtering distributes over concatenation, so list order is kept. |
| SkyObjectList.MatchingCounts | kstars/auxiliary/skyobjectlistmodel.cpp:61-72 | Duplicates are kept: a matching name occurs in the result as often as in the list, and a non-matching name never does. |
| SkyObjectList.SetSkyObjects | kstars/auxiliary/skyobjectlistmodel.cpp:74-80 | The stored list becomes exactly the given one. |
| SkyObjectList.SetForgetsOld | kstars/auxiliary/skyobjectlistmodel.cpp:74-80 | The model after a reset does not depend on the previous list, and lookups see only the new entries. |
| SkyObjectList.Data | kstars/auxiliary/skyobjectlistmodel.cpp:44-59 | The result is a name exactly for a valid index with the display role, and an object handle exactly for a valid index with the object role; otherwise it is empty. The name or handle is that of the indexed row. |
| SkyObjectList.DataAtFind | kstars/auxiliary/skyobjectlistmodel.cpp:32-59 | The row indexOf finds displays the name that was looked up. |
| FitsConvert.Saturate | kstars/indi/cfitsio/putcoluj.c:695-706 | Each output lies in [0, max]. It equals its input exactly when the input fits, and is the saturated input otherwise. The status becomes OVERFLOW_ERR exactly when some input exceeds max, and otherwise keeps its incoming value. |
| FitsConvert.ToUChar | kstars/indi/cfitsio/putcoluj.c:695-706 | The unscaled ffu4fi1: outputs in [0, 255], values above 255 saturate to 255, and OVERFLOW_ERR exactly when one did. |
| FitsConvert.ToShort | kstars/indi/cfitsio/putcoluj.c:745-756 | The unscaled ffu4fi2: outputs in [0, SHRT_MAX], values above it saturate, and OVERFLOW_ERR exactly when one did. |
| FitsConvert.ToInt32 | kstars/indi/cfitsio/putcoluj.c:808-819 | The unscaled ffu4fi4: outputs in [0, INT32_MAX], values above it saturate, and OVERFLOW_ERR exactly when one did. |
| FitsConvert.ToLongLong | kstars/indi/cfitsio/putcoluj.c:863-866 | The unscaled ffu4fi8: each output is a signed 64-bit value whose bit pattern, read back unsigned, is the input. It equals the input exactly when the input is at most LONGLONG_MAX, and the status is untouched. |
| FitsColumn.ConvertChunk | kstars/indi/cfitsio/putcoluj.c:428-486 | The type switch converts every value of a chunk to the column's stored value. The status becomes OVERFLOW_ERR exactly when a value overflows a byte, short or 32-bit column. |
| FitsColumn.Chunks | kstars/indi/cfitsio/putcoluj.c:411-526 | The loop rejects a non-numeric column exactly when there is input. Otherwise its chunks tile the input in order, each being the largest that fits the remaining input, the buffer and the rest of the row's vector. Each chunk is at the byte position of its (row, element), with converted data, and the status records whether any value overflowed. |
| FitsColumn.Resume | kstars/indi/cfitsio/putcoluj.c:515-525 | After a chunk, the next one starts at the following input value. That is the next element of the same row, or element 0 of the next row when the chunk completed its row. |
| FitsColumn.WriteColumn | kstars/indi/cfitsio/putcoluj.c:355-540 | An incoming error, or a failure to prepare the column, is returned with no writes. A non-numeric column with input gives BAD_ATABLE_FORMAT or BAD_BTABLE_FORMAT by table kind. Otherwise the chunks tile the input, and the status is NUM_OVERFLOW exactly when a value overflowed, else the incoming status. |
| FitsColumn.ChunksCover | kstars/indi/cfitsio/putcoluj.c:411-526 | The chunk sizes add up to the number of values written. |
| FitsColumn.ChunkBounds | kstars/indi/cfitsio/putcoluj.c:421-422 | Every chunk is non-empty, fits the buffer and stays inside one row's vector. A chunk ends its row exactly when the next chunk starts at element 0. |
| FitsNulls.SplitRuns | kstars/indi/cfitsio/putcoluj.c:606-670 | The runs cut the input into consecutive, non-empty, alternating pieces from first to last value, each all good or all null. There are no runs exactly when there is no input. |
| FitsNulls.SegmentsUnique | kstars/indi/cfitsio/putcoluj.c:606-670 | Two such segmentations of the same input are equal, so the runs are determined by the input. |
| FitsNulls.Locate | kstars/indi/cfitsio/putcoluj.c:612-614 | For an absolute element number of at least 1, the row is at least 1 and the element lies in [1, repeat]. Together they give back the absolute number. |
| FitsNulls.LocateInverse | kstars/indi/cfitsio/putcoluj.c:604-614 | Numbering a valid (row, element) absolutely and locating it again gives the same pair. |
| FitsNulls.RunCallPlaced | kstars/indi/cfitsio/putcoluj.c:606-670 | Each run gets one write of its own kind and length, at the (row, element) of its first value. The exception is a good run of a variable-length column, which gets none. |
| FitsNulls.FixedPlanCovers | kstars/indi/cfitsio/putcoluj.c:606-670 | For a fixed-length column the writes correspond one to one, in order, with the runs: same length, good exactly when the run is good. |
| FitsNulls.VariablePlanNullsOnly | kstars/indi/cfitsio/putcoluj.c:590-601 | For a variable-length column every per-run write is a null fill, since the good values went out with the whole vector. |
| FitsNulls.PlanUncheckedLast | kstars/indi/cfitsio/putcoluj.c:653-670 | Only the write of the last run goes unchecked, so no earlier write of the plan is unchecked. |
| FitsNulls.SettleClean | kstars/indi/cfitsio/putcoluj.c:606-676 | When every write succeeds, all of them are issued. The status is clean, or NUM_OVERFLOW if an overflow was already remembered. |
| FitsNulls.SettleOverflow | kstars/indi/cfitsio/putcoluj.c:590-676 | When the only failures are overflows, every write is issued. NUM_OVERFLOW is reported exactly when a value write overflowed; an overflow of the whole-vector write is dropped. |
| FitsNulls.SettleStops | kstars/indi/cfitsio/putcoluj.c:590-649 | The first fatal failure is the last write issued, and its status is returned, whatever non-fatal statuses the earlier writes gave (overflows remembered or dropped included). |
| FitsNulls.WriteColumnNull | kstars/indi/cfitsio/putcoluj.c:542-679 | An incoming error is returned with nothing written. Otherwise the runs segment the input, and the writes issued are the plan's prefix up to the first fatal failure, with the status that failure or the overflow bookkeeping leaves. |
| FitsImage.GroupRow | kstars/indi/cfitsio/putcoluj.c:64 | The table row is the group when the group is at least 1, and row 1 otherwise. |
| FitsImage.PrimaryWrite | kstars/indi/cfitsio/putcoluj.c:64-66 | ffppruj and ffppnuj write all pixels in one call into column 2 of row max(1, group), starting at the first element. |
| FitsImage.CubePlan | kstars/indi/cfitsio/putcoluj.c:131-201 | An array of the image's shape is written in one call of naxis1*naxis2*naxis3 pixels. A smaller array is rejected with BAD_DIMEN, even over an incoming error. A larger one gives naxis3*naxis2 row writes, where write k takes naxis1 pixels from array row k, skipping the array's extra columns and rows. Otherwise an incoming error comes back with nothing written. |
| FitsImage.SquarePlan | kstars/indi/cfitsio/putcoluj.c:111-130 | ffp2duj is ffp3duj with one plane. Same width gives one write; narrower is BAD_DIMEN; wider gives naxis2 writes, the k-th at FITS pixel 1+k*naxis1 taking array offset k*ncols. An incoming error comes back unchanged, except that BAD_DIMEN replaces it. |
| FitsImage.PadAxes | kstars/indi/cfitsio/putcoluj.c:246-258 | The first naxis axes take the caller's first pixel, range and size. The remaining axes up to 7 have first pixel, range and size 1. |
| FitsImage.SubsectionPlan | kstars/indi/cfitsio/putcoluj.c:203-328 | An incoming error is returned, and a naxis outside 1..7 is BAD_DIMEN. A plan of writes is produced exactly when neither applies. |
| FitsImage.SubsectionShape | kstars/indi/cfitsio/putcoluj.c:287-324 | The subsection is written as one segment per combination of outer counters, that is the product of the ranges of axes 2..7. Every segment goes to the group's row, takes irange[0] pixels and reads the array contiguously from its start. |
| FitsImage.SubsectionCorner | kstars/indi/cfitsio/putcoluj.c:260-293 | When every axis has pixels to write, the first segment starts at the FITS pixel of the corner `fpixel` (1 plus its flattened offset) and reads from array offset 0. |

## Left out

- The star content of a block and the block's own fields other than the links, draw id and faint magnitude are left out: the StarBlock class is not part of this model.
- StarBlockFactory.GetBlock: `StarBlock::reset()` on a recycled block (line 81) is not modelled, because its body is not part of this model. The recycled block keeps its draw id and faint magnitude in the model.
- A failing `new StarBlock` (the null checks at lines 60 and 87) is left out: allocation always succeeds in the model.
- The parent-trixel test of getBlock (lines 69-70) only logs an error message and does not change the result; it is left out.
- The `qDebug` logging, `printStructure`, the singleton accessor `Instance()` and the destructor are left out because they only log or release memory.
- `groupMove` (lines 197-242) is commented out in the source.
- StarBlockFactory.Allocate: a new block is taken to have null links, draw id 0 and faint magnitude -5.0. This is assumed to be what the StarBlock constructor sets up; starblock.cpp is not part of this model. The claims that an allocated block starts detached and undrawn rest on that assumption.
- SkyObjectList.Data: requires a valid index to name an existing row. This is Qt's contract for a valid model index; the source indexes `skyObjects[index.row()]` at lines 52 and 56 without a bounds check of its own.
- StarBlockFactory.MarkNext: the log message is reduced to a flag (`orderWarning`); its text is not modelled.
- The scaled branches of `ffu4fi1/2/4/8` (TSCALn/TZEROn other than 1/0) and the converters `ffu4fr4`, `ffu4fr8` and `ffu4fstr` are left out because they are floating point and text formatting. Float, double and ASCII-numeric columns receive the integer itself.
- The special `ffu4fi4` path for scale 1, zero 2147483648 (the sign-bit flip of lines 800-806) is floating-point-parameter driven and is left out.
- Compressed images (`fits_is_compressed_image`, `fits_write_compressed_img`) are left out: that code is not part of this model.
- `ffgcprll`, the HDU reset of `ffpcnuj` (lines 567-576), `ffmbyt` and the byte writers are I/O. Their result enters as a `Prepared` input, or through the `respond` status oracle, and the writes are returned as commands.
- StarBlockFactory.MarkNextPlaces: requires the anchor to be on the list. The source also accepts a detached anchor, and then breaks the list, as DetachedAnchorRun shows. No order property holds in that case.
- FitsColumn.WriteColumn: when there is input, a prepared layout is taken to satisfy `Sane` (a starting element inside the vector and a buffer of at least one value). That is what `ffgcprll` checks before it succeeds, and `ffgcprll` is not part of this model.
- FitsNulls.WriteColumnNull: requires a positive vector length whenever there is input. For a column declared with repeat 0 the C code divides by zero at lines 613, 629, 656 and 666, which C leaves undefined, so that case is excluded.
- FitsColumn.WriteColumn: every write is taken to succeed, so the per-chunk test for a fatal status (lines 503-510) never fires and is not modelled.
- FitsImage.CubePlan: the early return after a failed row write is not modelled. The plan lists every write the loop would issue when they all succeed.
- FitsImage.SubsectionPlan: the early return after a failed segment write is not modelled, as for CubePlan. The segment list is described by SubsectionShape and SubsectionCorner rather than element by element.
- `ffpgpuj` and the remaining writers of `putcoluj.c` outside the listed functions are left out. So is `scalnull.c`.
- Qt's model signals (`beginResetModel`/`endResetModel`), `roleNames`, `QVariant` wrapping and `QRegExp` are left out. The regular-expression match is an arbitrary predicate on names.
- `skymaplite.h` and `planetmoonscomponent.h` are only referenced for context and are not modelled.
- Integer widths in the image writers (`long`, `LONGLONG`) are unbounded in the model: overflow of pixel offsets is not modelled.
