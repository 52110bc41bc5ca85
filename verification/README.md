# A verified model of an operating-system exercise

The repository is a small operating system spread over sockets: a memory server, a block file system, a CPU that
interprets AnSISOP programs, and a kernel that schedules them. This project models in Dafny the state each of them keeps
and the loops over it, and proves what that state obeys over whole runs. `dafny verify dfyconfig.toml` checks
everything.

Each component comes in two layers. Modules of functions and lemmas give its state as a value, one function per
operation, and the theorems. A class keeps the same state in fields and arrays and updates it in place with the loops of
the original; every method is proved equal to the function of its operation (`Vista()` is the value the fields stand
for).

**Memory server** (`Memoria/Memoria.c`). `Tablas` is the inverted page table and the chained hash index with linear
probing, and `Conteo` counts its entries; `Cache` the write-through LRU cache with a quota per process; `Heap` the
first-fit, splitting and coalescing heap inside a page, down to its header bytes, and `HeapVivo` the same page as a map
of its occupied blocks; `Modelo` table, frames and cache together, seen as a map from (pid, page) to bytes; `Asignacion`
the allocator that walks and adds pages; `Abstracta` the plain machine the server refines; `Corridas`, `HeapDeProceso`,
`Persistencia`, `Numeracion`, `Residencia` and `Contraejemplos` whole runs; `Colocacion` where pages go and what
addresses mean; `Disposicion` the table inside the memory it describes. `CacheDePaginas` and `Servidor` are the classes.
The main results are `CorridaRefina` with `RespuestaUnica` (whatever the requests, the answers are those of a machine
that holds pages and counts frames, refusals included), `BloqueVivo` and `LecturaDeLoEscrito` (over runs, a heap block
answered keeps its address and its bytes, and what was written is what is read), `CorridaPaginas` with
`PaginaReemplazada` (ages are those of the pages requested, so replacement is least recently used), `FalloEnLinea` and
`CorridaResidencia` (which line a miss takes, and which pages are in the cache), `DireccionDeNuevo` (the address a new
process is answered), `CorridaTesela` and `CorridaRefinaMapa` (a heap page stays tiled and coalesced, and is a map of
live blocks), `CorridaHeap` (the requests of a process keep its pages a heap), `CorridaUnicas` (when page numbers stay
distinct), `AlocarFallido` and `BuscarLugarAgregadas` (when a request fails and what it has then cost), and
`EscrituraProtegida` (no data write reaches the page table).

**File system** (`FileSystem/fs.h`). `Trozado` cuts a byte range into block pieces, `Metadatos` writes numbers and block
lists as text, `Archivos` and `Operaciones` are blocks, bitmap, files and requests, `Libretas` whole runs, `FileSystem`
the class. The main results are `EmbaldosadoUnico` (the pieces are the only tiling of the range), `GuardarPlano` (a
write through pieces is a splice of a flat array, and touches no other file), the ownership invariant kept by every
request (`CrearSano`, `BorrarSano`, `GuardarSano`), `CodigosDeUnaCorrida` (after any run every answer, lack of room
included, follows from the requests alone), and `LecturasDeUnaCorrida` with `LecturasSinHuecos` (what reads return, and
when the requests fix every byte of it).

**Process control block on the wire** (`shared_libs/PCB.h`). `Pcb` has the bytes and the reader, `Serializacion` the
shared buffers, the sender and the receiver. The main results are `LeerPCBDe` (round trip before any suffix),
`BloqueCortado` (a block cut short is never received), `DePCB` (the size pass is exact) and `PCBCereal` (every write is
in bounds and the buffer is filled). `Formato` says where each field lies.

**Call stack** (`CPU/CPU.c`). `Pila` has variables, arguments and call records over one stack pointer, `Procesador` the
class. The main results are `RanurasDisjuntas`, `BusquedasYPuntero` and `PunteroRestaurado`: finishing a call gives back
the space of its variables and keeps that of its arguments, so a stretch of calls restores the stack pointer exactly
when none of its steps defines an argument; `LlamadaVuelve`: a call comes back to where it was made, with its callers as
they were; and `RanurasEnPaginas`, when every slot lies inside one page.

**Kernel** (`Kernel/Kernel.c`). `Planificador` has the queues, processors, semaphores and messages, `Turnos` the
invariant and the runs, `Historial` what a run did told by its messages, `Nucleo` the class. The main results are
`UnSoloLugar` (every process in exactly one place, and which ones are in none), `Semaforos` (value, queue length,
first-in-first-out waking and the bound on completed waits), `Multiprogramacion`, and the orders in which scripts wait,
processes run and processes leave (`OrdenDeScripts`, `OrdenDeLlegada`, `OrdenDeSalida`).

`Bytes`, `Listas` and `Decimal` hold little-endian words, splices of a buffer, lists of numbers and decimal numerals for
all of them.

## What the model assumes

Conditions the code relies on without testing are preconditions: accesses stay inside one page; a page is mapped before
it is written, freed or used as a heap; heap requests start at a page from which the process's pages are contiguous and
hold formatted blocks (`CorridaHeap` shows that its own requests keep them so); the concatenated numerals of pid and
page fit the `int` that `atoi` returns. `EstadoInicial` shows that a server that has just started satisfies the
invariant every theorem about the memory starts from; in the same way `Vacio`, the empty run of `Pila` and `InicialInv`
start the runs of the other components.

Messages and scheduler passes are atomic steps. Memory's answer to a new script, and whether the connection broke while
a blocked process was being received, are parameters of a step. What `malloc` leaves in a new stack record is an unknown
value, and so is the rest of the closing mark of a list of pieces.

## Where code and intention differ

The model follows the code. Each difference is a lemma that gives the exact condition and, where one is named too, a run
from startup that shows it.

- A failed `alocar` keeps the pages it added (`AlocarFallido`, `PedidoImposible`).
- `asignar_nueva_pagina` numbers a page by counting, so after freeing a page in the middle the number may be in use
  (`NuevaPaginaUnica`, `CorridaUnicas`, `NumeroRepetido`).
- `liberar_pagina` leaves `admin_cache`, so a later insertion can exceed the quota or take a freed line instead of the
  least recently used page (`AccederCuotaExacta`, `CuotaExcedida`, `ReemplazoLocal`).
- The last page of a new process's script is not written when the length plus two is a multiple of the frame size
  (`GuionCompleto`, `UltimaPaginaPerdida`, `GuionPerdido`).
- A page shows what its frame held before, be it of a process that has ended (`AdmitirAbs`, `BytesAjenos`).
- `array_to_write` overruns its buffer by one for a file without blocks (`BufferAlcanza`); every file has one.
- A write that starts beyond the end of a file makes the bytes in between part of it, and they read as whatever their
  blocks held before, be it a block the file already had or one just taken, so a file can show bytes of a deleted one
  (`GuardarSinHueco`, `ByteDelHueco`, `ByteDeOtro`).
- Arguments are never given back to the stack (`PunteroRestaurado`, `PunteroPerdido`), and a slot at the first byte of
  a page is recorded at the end of the previous one (`AvanceNormal`, `OffsetDeUnaPagina`).
- Slots cross pages unless the page size is a multiple of four (`RanurasEnPaginas`).
- The process list shows a process as ready while it runs, from its second stay on a processor on (`EstadoEnCpu`,
  `ListadoComoListo`).
- A process whose script memory answers 0 pages for is in no queue (`UnSoloLugar`, `EnNingunLugar`).
- A block whose size does not fit 32 bits is sent cut short (`SendPCB`, `EnviarYRecibir`).
- `recibirPCBV2` fills a block and returns nothing; the model returns the block.

## Model

| member | source | states |
|---|---|---|
| `Tablas.CalcularPosicion` | Memoria/Memoria.c:253-261 | the position is a bucket of the index for every page whose concatenated numeral `atoi` can hold; `Colocacion.PosicionAritmetica` says which one |
| `Colocacion.PosicionAritmetica` | Memoria/Memoria.c:253-261 | the hash is `pid * 10^digits(pagina) + pagina` modulo the number of frames |
| `Tablas.ClaveAritmetica` | Memoria/Memoria.c:254-259 | concatenating the two numerals is `pid * 10^digits(pagina) + pagina`; when `atoi` can hold it, both numbers fit a signed word |
| `Decimal.AtoiDec` | Memoria/Memoria.c:256-259 | `atoi` reads back what `sprintf("%d")` printed |
| `Decimal.AtoiConcat` | Memoria/Memoria.c:258-259 | reading two numerals glued by `strcat` is shifting the first by the length of the second |
| `Tablas.Buscar` | Memoria/Memoria.c:280-295 | a frame of the bucket whose table entry is the page, and -1 exactly when none is |
| `Tablas.BuscarPrimero` | Memoria/Memoria.c:280-295 | the frame answered is the first of the bucket that is the page |
| `Tablas.MarcoCorrecto` | Memoria/Memoria.c:263-295 | with index and table in agreement, searching one bucket answers -1 exactly when no entry of the whole table is the page, and otherwise a frame that holds it |
| `Tablas.MarcoExacto` | Memoria/Memoria.c:263-295 | with no page stored twice, the index answers `f` if and only if the table says frame `f` is that page |
| `Listas.QuitarEs` | Memoria/Memoria.c:301-313 | removing a frame from its bucket takes out its first position and nothing else |
| `Tablas.OcuparConserva` | Memoria/Memoria.c:592-596 | marking a free frame and adding it to its bucket keeps every used frame in exactly its bucket, once |
| `Tablas.OcuparMarco` | Memoria/Memoria.c:592-612 | after taking a frame the new page is found there unless it was already mapped; every other search answers as before |
| `Tablas.VaciarConserva` | Memoria/Memoria.c:1070-1078 | emptying an entry and removing it from its bucket keeps index and table in agreement |
| `Tablas.VaciarMarco` | Memoria/Memoria.c:1070-1078 | searches for any page other than the one emptied answer as before |
| `Tablas.FinalizarTabla` | Memoria/Memoria.c:520-533 | the sweep gives back exactly the frames of the process |
| `Tablas.FinalizarMarco` | Memoria/Memoria.c:520-533 | no page of another process is lost, moved or shadowed by the sweep |
| `Tablas.FinalizarSinPaginas` | Memoria/Memoria.c:520-533 | afterwards no page of the process is found |
| `Tablas.Hueco` | Memoria/Memoria.c:591-613 | the wrap-around probe ends at a free frame whenever one exists: the nearest one from its start, or else the lowest one |
| `Tablas.ElegidosDistintos` | Memoria/Memoria.c:587-614 | the pages of one placement get pairwise different frames |
| `Tablas.ColocarTabla` | Memoria/Memoria.c:585-614 | with enough free frames pages 0..n-1 get one distinct, previously free frame each, and no other table entry changes |
| `Tablas.ColocarMarco` | Memoria/Memoria.c:585-616 | after placement exactly the requested pages are new to the index, each found in its own frame |
| `Colocacion.HuecoDesdeElHash` | Memoria/Memoria.c:588-612 | a page goes to the first free frame from its hash on, going around |
| `Colocacion.MarcoDeCadaPagina` | Memoria/Memoria.c:587-614 | so does each page of a new process, over the frames the pages before it left free |
| `Colocacion.MarcoDeNuevaPagina` | Memoria/Memoria.c:742-782 | a page asked for goes there, and no other entry of the table changes |
| `Colocacion.MarcoDePaginaDeHeap` | Memoria/Memoria.c:693-732 | a page the allocator adds goes to the lowest free frame |
| `Colocacion.SueltaDevolver` | Memoria/Memoria.c:1066-1078 | the frame of a page given back is marked free in both fields, and no byte changes |
| `Colocacion.SueltaTerminar` | Memoria/Memoria.c:520-533 | so are the frames of a process that ends, all of them and no other |
| `Colocacion.PasoDeMarcos` | Memoria/Memoria.c:1206-1340 | a frame free after a request holds the bytes it held before it, and the frames of the table keep their entries |
| `Colocacion.CorridaLimpiaDesdeElArranque` | Memoria/Memoria.c:141-166 | over any run from startup free entries are marked as startup marks them and those of the table never change |
| `Cache.Victima` | Memoria/Memoria.c:425-445 | the scan answers a candidate line of positive age, or -1 when no candidate has one |
| `Cache.VictimaCorrecta` | Memoria/Memoria.c:425-445 | the victim is strictly older than every candidate before it and at least as old as every one after it |
| `Cache.ElegirDefinido` | Memoria/Memoria.c:447-489 | because ages are raised before the insertion, the victim index is always defined |
| `Cache.EdadesDistintas` | Memoria/Memoria.c:482-499 | ages of lines in use are pairwise different and order the lines by their last use |
| `Cache.AccesoEdades` | Memoria/Memoria.c:482-499 | raising every age and zeroing the touched line keeps each age equal to the number of accesses since the line's last use |
| `Cache.VictimaMenosReciente` | Memoria/Memoria.c:425-445 | the victim's last use lies further back than that of any other candidate |
| `Cache.PaginaReemplazada` | Memoria/Memoria.c:425-468 | with ages true of pages, the page replaced is the one whose last access lies furthest back: of all pages below the quota, of the process's own at it, when the line chosen is not a freed one |
| `Cache.ReemplazoGlobal` | Memoria/Memoria.c:461-464 | a process below its quota with the cache full replaces the least recently used line of all |
| `Cache.ReemplazoLocal` | Memoria/Memoria.c:457-468 | a process at its quota loses the line of its oldest administrative entry, and that replaces its own least recently used resident page if and only if the line is still in use |
| `Cache.FalloEnLinea` | Memoria/Memoria.c:447-480 | a miss puts the page and its bytes on one line and changes no other but for its age: at the quota the oldest by administrative entry, below it the lowest free line, and the oldest of all only when none is free |
| `Cache.AciertoEnLinea` | Memoria/Memoria.c:831-845 | a hit refreshes its own line and moves no page, nor does an access with the cache disabled |
| `Residencia.PasoResidencia` | Memoria/Memoria.c:320-344 | a page is resident after an access, a flush, the end of a process or a release exactly when that brings it in, or it was and is not expelled (with lines 447-480, 1080-1088) |
| `Residencia.PasoSucesos` | Memoria/Memoria.c:1206-1340 | the cache after a request is the cache before it after the accesses and releases the request makes, in order |
| `Residencia.CorridaResidencia` | Memoria/Memoria.c:1206-1340 | over any run a page is resident exactly when it was, or an access brought it in, and nothing later expelled it |
| `Residencia.PorQueSale` | Memoria/Memoria.c:320-344 | a page leaves the cache only on a flush, its release, the end of its process, or a miss when no line is free or its process is at the quota (with lines 447-480, 1080-1088) |
| `Residencia.FlushVacia` | Memoria/Memoria.c:320-330 | after a flush every line has no page, no process and no age, and only zeros; table and frames stay |
| `Residencia.FinalVacia` | Memoria/Memoria.c:333-344 | the end of a process blanks exactly the lines whose administrative entry is its own |
| `Residencia.PrimeraLectura` | Memoria/Memoria.c:320-330 | after a flush the first read of a mapped page is a miss that takes line 0 and leaves the others blank (with lines 447-480) |
| `Cache.IncorporarCuota` | Memoria/Memoria.c:447-480 | a miss exceeds the quota if and only if the process is at it and the oldest line its administrative entries name, the lowest on a tie, has been freed |
| `Cache.AccederCuotaExacta` | Memoria/Memoria.c:447-480 | so does any access, hits never |
| `Cache.LimpiezasSinExceso` | Memoria/Memoria.c:320-344 | flushing, ending a process and freeing a page never exceed it (with lines 1080-1088) |
| `Cache.SincronizadaCuota` | Memoria/Memoria.c:447-480 | while the two cache arrays name the same processes, every insertion keeps the quota and that agreement |
| `Contraejemplos.CuotaExcedida` | Memoria/Memoria.c:1080-1088 | a run of ten requests from startup, with two lines and a quota of one, that keeps the quota up to its last read and then exceeds it, because `liberar_pagina` left `admin_cache` alone (with lines 447-480) |
| `Cache.SinProcesoAusente` | Memoria/Memoria.c:333-344 | flushing a process through the administrative entries leaves no page of it |
| `Cache.AccederSana` | Memoria/Memoria.c:831-858 | no access leaves a page in two lines or a live line without its administrative entry |
| `Cache.AccederContenido` | Memoria/Memoria.c:849-857 | after an access every live line holds the accessed page's bytes or exactly what it held before (with lines 941-950) |
| `Cache.AccederPresente` | Memoria/Memoria.c:849-857 | with the cache enabled the accessed page is resident afterwards |
| `Cache.AccederCuota` | Memoria/Memoria.c:447-480 | every access keeps the quota while the two arrays agree |
| `Heap.Parsear` | Memoria/Memoria.c:799-818 | a walk over the headers that reaches the end of the page exactly accounts for every byte of it |
| `Heap.ParsearCodificar` | Memoria/Memoria.c:799-818 | the headers of a page determine its blocks |
| `Heap.CabeceraEn` | Memoria/Memoria.c:800-801 | what the header walk reads at the place of block `k` is the size, flag and payload of block `k` |
| `Heap.PrimerAjuste` | Memoria/Memoria.c:799-818 | the block taken is free and large enough for the request and a header, and no earlier block is |
| `Heap.PartirBytes` | Memoria/Memoria.c:802-813 | splitting a block is exactly the two header writes the code makes |
| `Heap.SoltarBytes` | Memoria/Memoria.c:1041-1050 | freeing a block is exactly one byte of its header |
| `Heap.FundirBytes` | Memoria/Memoria.c:1018-1022 | merging two free neighbours is exactly rewriting the size of the first header |
| `Heap.CompactarSinVecinos` | Memoria/Memoria.c:1013-1031 | after the walk no two neighbouring blocks are both free |
| `Heap.CompactarLargo` | Memoria/Memoria.c:1013-1031 | headers and payloads still tile the page exactly |
| `Heap.CompactarConservaLibres` | Memoria/Memoria.c:1017-1023 | free bytes afterwards are those before plus five per merge |
| `Heap.CompactarVivos` | Memoria/Memoria.c:1013-1031 | occupied blocks keep their addresses and payload bytes |
| `Heap.VivosDisjuntos` | Memoria/Memoria.c:799-818 | occupied payloads follow each other with a header in between, so they never overlap |
| `Heap.ReservarVivos` | Memoria/Memoria.c:801-814 | a request that succeeds adds one occupied block at the address returned and leaves the others where they were |
| `Heap.LiberarVivos` | Memoria/Memoria.c:1046-1052 | freeing an occupied block and compacting removes that block alone |
| `Heap.EscrituraEnBloque` | Memoria/Memoria.c:939 | a write inside an occupied payload leaves every header and every other payload alone |
| `Heap.DarConserva` | Memoria/Memoria.c:794-824 | each request or release keeps the page tiled and without free neighbours (with lines 1013-1052) |
| `Heap.CorridaTesela` | Memoria/Memoria.c:794-824 | after any run of requests, releases and payload writes the headers tile the page, no two neighbours are free, and with nothing left occupied the page is one free block of the frame size minus five (with lines 1013-1052) |
| `HeapVivo.OcupadoEn` | Memoria/Memoria.c:1036-1048 | a client may free or write exactly the addresses of the map of occupied blocks, and the map holds their bytes |
| `HeapVivo.CorridaRefinaMapa` | Memoria/Memoria.c:794-824 | any run of requests, releases and writes on a page is a run of a map from addresses to bytes: a request adds a block of the size asked for, a header apart from every other, or nothing; a release removes its block; a write changes its block alone (with lines 939, 1013-1052) |
| `HeapVivo.BloqueIntacto` | Memoria/Memoria.c:794-824 | a block neither given back nor written during a run is at its address with its bytes at the end (with lines 1013-1052) |
| `Heap.PaginaNueva` | Memoria/Memoria.c:780-784 | writing the first header over whatever the frame held makes it one free block |
| `Modelo.AdminCabe` | Memoria/Memoria.c:145-164 | the frames marked for the table exist if and only if a frame holds at least one twelve-byte entry, and they hold the whole table |
| `Modelo.AdminMinimo` | Memoria/Memoria.c:145-160 | one frame fewer would not hold the table |
| `Modelo.LecturaTransparente` | Memoria/Memoria.c:826-860 | a read answers the bytes of the abstract page map, or nothing exactly when the page is unmapped, whether the cache or memory serves it, and leaves the map unchanged (with lines 868-896) |
| `Modelo.EscrituraTransparente` | Memoria/Memoria.c:927-952 | a write changes exactly its bytes of its page in the abstract map, memory and cached copy together |
| `Modelo.FormateadaEsUnBloque` | Memoria/Memoria.c:780-784 | a page just granted parses as one free block (with lines 720-724) |
| `Modelo.AgregarPaginaAbs` | Memoria/Memoria.c:734-792 | granting a frame adds one formatted page to the abstract map, or nothing when the number was already mapped (with lines 693-732) |
| `Modelo.LiberarPaginaAbs` | Memoria/Memoria.c:1066-1089 | freeing a page leaves every other page as it was |
| `Modelo.LiberarPaginaDesmapea` | Memoria/Memoria.c:1066-1089 | the freed page is unmapped if and only if no second frame carried the same number |
| `Modelo.FinalizarProcesoAbs` | Memoria/Memoria.c:520-535 | ending a process removes all its pages from the abstract map and nothing else |
| `Modelo.FlushAbs` | Memoria/Memoria.c:320-330 | emptying the cache changes no page |
| `Modelo.AdmitirAbs` | Memoria/Memoria.c:579-631 | exactly pages 0..n-1 of the process become mapped, each showing what its free frame held; pages already mapped keep their bytes |
| `Modelo.AdmitirMapea` | Memoria/Memoria.c:1226-1238 | every page the copy loop writes is mapped |
| `Modelo.CopiarGuionAbs` | Memoria/Memoria.c:1228-1239 | after the copy each page of the process holds its piece of the script and no other page has changed |
| `Colocacion.DireccionDeNuevo` | Memoria/Memoria.c:615-629 | the address a new process is answered is where a frame past the table starts, the frame of its page 0, which holds the bytes of that page; a refused process is answered -1 (with lines 1240-1241) |
| `Modelo.GuionCompleto` | Memoria/Memoria.c:1220-1238 | the pieces copied are the whole script if and only if its length plus two is not a multiple of the frame size; otherwise the last frame's worth is missing |
| `Contraejemplos.UltimaPaginaPerdida` | Memoria/Memoria.c:1220-1238 | two scripts of whole pages that differ only in the last one leave the server in the same state |
| `Contraejemplos.GuionPerdido` | Memoria/Memoria.c:1206-1265 | a started server that loads a script filling one page answers a read of that page the same whatever the script |
| `Asignacion.PaginaDeHeapEfecto` | Memoria/Memoria.c:693-732 | a page added for the heap gets the count of pages as its number and takes one free frame |
| `Asignacion.PaginaDeHeapAbs` | Memoria/Memoria.c:693-732 | the added page is one free block and the others keep their bytes, unless its number was already mapped |
| `Asignacion.BuscarLugarExito` | Memoria/Memoria.c:954-995 | the search succeeds if and only if the request fits in a page the process has from the given one on, or a frame is free and the request fits in an empty page |
| `Asignacion.BuscarLugarPrimero` | Memoria/Memoria.c:966-995 | no page before the one returned could take the request |
| `Asignacion.BuscarLugarCuenta` | Memoria/Memoria.c:968-982 | every page the search adds takes one free frame |
| `Asignacion.BuscarLugarAgregadas` | Memoria/Memoria.c:968-995 | the search adds no page when the request fits in one the process has, one when it fits in an empty page and a frame is free, and every free frame otherwise |
| `Asignacion.BuscarLugarAbs` | Memoria/Memoria.c:968-995 | the search changes no page: it only adds empty ones after the last of the process |
| `Asignacion.AlocarFallido` | Memoria/Memoria.c:968-1010 | a request fails if and only if it fits in no page the process has and no frame is free or no empty page could hold it; in the latter case, and in no other, the failure changes the pages, and it leaves no frame free |
| `Contraejemplos.PedidoImposible` | Memoria/Memoria.c:968-1010 | a started server asked for a page and then for a block no page can hold answers -1 and has given every frame to the process |
| `Asignacion.AlocarLogrado` | Memoria/Memoria.c:954-1011 | a request answers where the search stopped and splits the first fitting block of that page, which is all that changes besides the pages added |
| `Asignacion.LiberarAbs` | Memoria/Memoria.c:1033-1064 | a release frees the block, compacts that page and changes no other |
| `Abstracta.PasoRefina` | Memoria/Memoria.c:1206-1340 | every request, answered through cache, index and memory, is a step of a plain machine that holds the pages, the number of free frames, the frames of each process and the frames that carry each page number; refusals, page numbers and the pages a heap request adds are exact |
| `Abstracta.RespuestaUnica` | Memoria/Memoria.c:1206-1340 | the answer of one step follows from what the plain machine holds |
| `Abstracta.VerCoherente` | Memoria/Memoria.c:263-295 | a page exists exactly when some frame carries its number |
| `Corridas.CorridaRefina` | Memoria/Memoria.c:1170-1350 | over every run of new-process, read, write, new-page, request, release, free-page, flush and finish messages the answers and the state are those of the plain machine |
| `Corridas.CorridaDesdeElArranque` | Memoria/Memoria.c:145-164 | every run of a started server is a run of the plain machine from no pages and all user frames free, with true page ages (with lines 1170-1350) |
| `Corridas.PasoEdades` | Memoria/Memoria.c:447-499 | every request keeps the ages true, and every one but freeing a page keeps the quota |
| `Corridas.CorridaEdades` | Memoria/Memoria.c:425-499 | over any run the age of each line is the accesses since it was last touched; over runs that free no page the quota holds throughout |
| `Corridas.CorridaPaginas` | Memoria/Memoria.c:425-499 | over any run the age of a resident page is the number of accesses since the last request for that page |
| `Corridas.NuevaPaginaUnica` | Memoria/Memoria.c:742-758 | a page asked for keeps all pages distinct if and only if its number, the count of pages, is not mapped |
| `Numeracion.PasoUnicas` | Memoria/Memoria.c:579-631 | from distinct pages, any request leaves them distinct if and only if it gives no number in use: none of a script's page numbers, none of those added by count (with lines 693-758, 954-1010) |
| `Numeracion.UnicasEnTabla` | Memoria/Memoria.c:263-270 | distinct pages in the table are pages counted at most once |
| `Numeracion.CorridaUnicas` | Memoria/Memoria.c:1206-1340 | pages stay distinct all along a run if and only if none of its requests gives a number in use |
| `Numeracion.CorridaUnicasDesdeElArranque` | Memoria/Memoria.c:1206-1340 | so they do from startup |
| `Contraejemplos.NumeroRepetido` | Memoria/Memoria.c:742 | three pages asked of a started server, the second given back and one more asked for: the answer is a number in use, and two frames hold the same page (with lines 1066-1078) |
| `Persistencia.PaginaIgual` | Memoria/Memoria.c:1206-1340 | a page no part of which the request names keeps every byte |
| `Persistencia.LecturaDeLoEscrito` | Memoria/Memoria.c:826-860 | after any run in which no request touches them, bytes written read back as written, from the cache or from memory (with lines 927-952) |
| `Persistencia.PasoTiene` | Memoria/Memoria.c:968-1052 | any request that does not free a live block, give back its page, end its process or write across blocks leaves it at its address with its bytes and what was written in it |
| `Persistencia.AsignarTiene` | Memoria/Memoria.c:968-1010 | a heap request that finds room gives a live block of the size asked for |
| `Persistencia.BloqueVivo` | Memoria/Memoria.c:794-860 | over any run of such requests a block answered by `alocar` keeps its address, and reading it returns what the writes into it left, from the cache or from memory (with lines 927-1052) |
| `Contraejemplos.BytesAjenos` | Memoria/Memoria.c:734-792 | with a single user frame, a process asks for a page, writes in it and ends; the next process asks for a page and reads there what the first one wrote (with lines 520-533) |
| `HeapDeProceso.NuevoSinDespues` | Memoria/Memoria.c:1206-1250 | a script admitted into a process without pages leaves no page numbered beyond their count |
| `HeapDeProceso.HeapEmpieza` | Memoria/Memoria.c:734-792 | the first page asked for by a process whose pages all lie below their count starts its heap |
| `HeapDeProceso.PasoHeap` | Memoria/Memoria.c:954-1052 | asking for pages and blocks, freeing blocks, reading, writing inside a block and every request of another process keep the pages of a heap contiguous, tiled and without free neighbours |
| `HeapDeProceso.CorridaHeap` | Memoria/Memoria.c:954-1052 | so over any such run, and the next heap request is admissible whatever its size |
| `Disposicion.EstadoInicial` | Memoria/Memoria.c:141-166 | a server that has just started satisfies the invariant of the whole memory model and maps no page (with lines 272-278, 354-365) |
| `Disposicion.EntradaNueva` | Memoria/Memoria.c:593-594 | storing the three words of an entry changes that entry of the table alone |
| `Formato.FilaEnBytes` | Memoria/Memoria.c:40-44 | frame, process and page of an entry, four bytes each |
| `Disposicion.TablaIntacta` | Memoria/Memoria.c:939 | bytes written above the table leave every entry as it was |
| `Disposicion.PaginasIntactas` | Memoria/Memoria.c:530-531 | bytes written to the table touch no user frame (with lines 593-594) |
| `Disposicion.EscrituraProtegida` | Memoria/Memoria.c:939 | a write inside a user frame changes that frame and not one byte of the page table (with lines 784, 813) |
| `CacheDePaginas.CacheLru.EstaEnCache` | Memoria/Memoria.c:367-376 | true exactly when some line holds the page |
| `CacheDePaginas.CacheLru.BuscarEntrada` | Memoria/Memoria.c:388-397 | the last line that holds the page |
| `CacheDePaginas.CacheLru.CantidadDeEntradas` | Memoria/Memoria.c:378-386 | the number of lines of the process |
| `CacheDePaginas.CacheLru.HayEspacioEnCache` | Memoria/Memoria.c:399-408 | true exactly when some line is free |
| `CacheDePaginas.CacheLru.EntradaLibre` | Memoria/Memoria.c:410-423 | the first free line |
| `CacheDePaginas.CacheLru.BuscarVictima` | Memoria/Memoria.c:425-445 | the oldest candidate line, over all lines or over those of one process |
| `CacheDePaginas.CacheLru.AumentarReferencias` | Memoria/Memoria.c:482-489 | every line in use is one access older |
| `CacheDePaginas.CacheLru.SetZeroRef` | Memoria/Memoria.c:491-499 | the line of the page becomes the youngest |
| `CacheDePaginas.CacheLru.InsertarEntrada` | Memoria/Memoria.c:447-480 | the chosen line holds the page and its bytes at age zero; nothing happens when the cache or the quota is zero |
| `CacheDePaginas.CacheLru.Flush` | Memoria/Memoria.c:320-330 | every line empty |
| `CacheDePaginas.CacheLru.FlushProcess` | Memoria/Memoria.c:333-344 | the lines whose administrative entry is of the process are empty, the rest as they were |
| `CacheDePaginas.CacheLru.OlvidarPagina` | Memoria/Memoria.c:1081-1087 | the page's line is marked free and its administrative entry stays |
| `Servidor.Memoria.constructor` | Memoria/Memoria.c:1352-1400 | a fresh server satisfies the invariant, maps no page and has an empty cache |
| `Servidor.Memoria.IniciarTabla` | Memoria/Memoria.c:141-166 | the bytes of the table become the initial table: free entries, and the first frames marked -1 |
| `Servidor.Memoria.MarcosLibres` | Memoria/Memoria.c:240-249 | the number of free entries |
| `Servidor.Memoria.PaginasDeProceso` | Memoria/Memoria.c:565-577 | the number of entries of the process |
| `Servidor.Memoria.BuscarEnIndice` | Memoria/Memoria.c:280-295 | the first frame of the bucket that is the page, or -1 |
| `Servidor.Memoria.AgregarFrameEnIndice` | Memoria/Memoria.c:297-299 | the frame goes to the end of its bucket and the others stay |
| `Servidor.Memoria.BorrarDeIndice` | Memoria/Memoria.c:301-313 | the frame leaves its bucket and the others stay |
| `Servidor.Memoria.FrameEnCubeta` | Memoria/Memoria.c:301-313 | a used frame is always found in the bucket it is removed from (with lines 525-528) |
| `Servidor.Memoria.BuscarEspacioV2` | Memoria/Memoria.c:579-631 | all pages are placed or nothing changes; the address is that of the frame of page 0 |
| `Servidor.Memoria.AsignarNuevaPagina` | Memoria/Memoria.c:734-792 | the next page by count in the frame its probe finds, formatted; -1 and no change without free frames |
| `Servidor.Memoria.BuscarEspacioParaHeap` | Memoria/Memoria.c:693-732 | the next page by count in the lowest free frame, formatted; -1 and no change without free frames |
| `Servidor.Memoria.BuscarEspacioLibre` | Memoria/Memoria.c:794-824 | the header walk returns the address of the first fit and leaves the page with that block split, or -1 and no change |
| `Servidor.Memoria.Lectura` | Memoria/Memoria.c:826-860 | bytes, cache and ages after an in-page read, hit or miss (with lines 868-896) |
| `Servidor.Memoria.Escritura` | Memoria/Memoria.c:927-952 | bytes of memory and of the cached copy, and ages, after an in-page write |
| `Servidor.Memoria.Alocar` | Memoria/Memoria.c:954-1011 | the loop over pages terminates and ends in the page, address and memory the search specifies |
| `Servidor.Memoria.CleanHeap` | Memoria/Memoria.c:1013-1031 | the walk terminates and leaves the page with every run of free neighbours merged |
| `Servidor.Memoria.Liberar` | Memoria/Memoria.c:1033-1064 | flag, merge and cache refresh of a release |
| `Servidor.Memoria.LiberarPagina` | Memoria/Memoria.c:1066-1089 | entry, bucket and cache line after freeing a page |
| `Servidor.Memoria.FinalizarProceso` | Memoria/Memoria.c:520-535 | table, index and cache after the sweep of a process |
| `Servidor.Memoria.Flush` | Memoria/Memoria.c:320-330 | an empty cache and unchanged memory |
| `Servidor.Memoria.NuevoProceso` | Memoria/Memoria.c:1206-1245 | frames for script and stack, then the script copied page by page, and the bytes of memory from the address on are those of page 0; nothing and -1 when the frames do not suffice |
| `Trozado.TrozosEmbaldosan` | FileSystem/fs.h:26-60 | the pieces are nonempty, each inside one block, on consecutive blocks from `offset / size of block`, each starting where the earlier ones end, and their sizes add up to the range |
| `Trozado.EmbaldosadoUnico` | FileSystem/fs.h:26-60 | no other list of pieces does that |
| `Trozado.UltimoTrozo` | FileSystem/fs.h:579-580 | the last piece falls on the block of the last byte, and no piece has the closing mark's id |
| `Trozado.BloqueOffset` | FileSystem/fs.h:19-23 | the loop answers one more than the block an offset falls on, and 0 below zero |
| `Trozado.BlocksToProcess` | FileSystem/fs.h:26-60 | the loop terminates with the pieces of the range followed by the closing mark |
| `Metadatos.Potencia` | FileSystem/fs.h:224-233 | the power of any base to any exponent, except that base 0 gives 0 for exponent 0 too |
| `Metadatos.ContarDigitos` | FileSystem/fs.h:252-262 | the loop over quotients stops one past the number of digits |
| `Metadatos.IntToStr` | FileSystem/fs.h:252-278 | the buffer holds the decimal numeral of the number ("0" below zero) and its terminator, and nothing more |
| `Metadatos.Digitos` | FileSystem/fs.h:255-262 | the digit count is the one exponent whose power of ten first exceeds the number |
| `Metadatos.BufferAlcanza` | FileSystem/fs.h:311-322 | the buffer of twice the text plus two holds the bracketed list and its terminator if and only if the file has a block |
| `Metadatos.ArrayToWrite` | FileSystem/fs.h:310-323 | the buffer holds the bracketed, comma-separated list and its terminator |
| `Metadatos.ListaIdaYVuelta` | FileSystem/fs.h:310-323 | splitting the written list at its commas and reading each numeral gives the block numbers back (with lines 234-250) |
| `Metadatos.ListaDeterminaBloques` | FileSystem/fs.h:310-323 | two different block lists never have the same text |
| `Formato.TextoDeLaLista` | FileSystem/fs.h:310-323 | numerals between brackets, with a comma between one and the next |
| `Archivos.PrimerLibre` | FileSystem/fs.h:214-222 | the first clear bit, and -1 exactly when all are set |
| `Archivos.LibresPositivo` | FileSystem/fs.h:214-222 | the count of clear bits is positive exactly when the search finds one (with lines 547-556) |
| `Archivos.AsignarNuevos` | FileSystem/fs.h:588-592 | after the count check the search never fails: the blocks taken are distinct, were clear, and only their bits change (with lines 214-222) |
| `Archivos.AsignarMenores` | FileSystem/fs.h:214-222 | the blocks taken are the lowest clear ones, in increasing order (with lines 588-592) |
| `Archivos.LimpiarLibres` | FileSystem/fs.h:405-411 | clearing a file's bits gives back exactly as many as it has blocks |
| `Archivos.EscribirContenido` | FileSystem/fs.h:594-602 | writing the buffer through the pieces is splicing it into the file's flat array of bytes |
| `Archivos.ContenidoAjeno` | FileSystem/fs.h:594-602 | the flat array of a file that shares no block is unchanged |
| `Archivos.EscribirEnTrozos` | FileSystem/fs.h:578-602 | writing the pieces `blocks_to_process` cuts is writing the range block by block |
| `Archivos.LeerContenido` | FileSystem/fs.h:521-539 | reading and joining the pieces is reading the range of the flat array |
| `Operaciones.CrearSano` | FileSystem/fs.h:351-380 | creating a file keeps every set bit owned by exactly one file, no block twice, and sizes within their blocks |
| `Operaciones.BorrarSano` | FileSystem/fs.h:412-440 | so does deleting one |
| `Operaciones.GuardarSano` | FileSystem/fs.h:563-607 | and so does writing |
| `Operaciones.GuardarPlano` | FileSystem/fs.h:563-607 | a successful write splices the buffer into the file's flat array, first lengthened by what its new blocks held, and leaves every other file's array alone |
| `Operaciones.GuardarFicha` | FileSystem/fs.h:580-606 | the written file's size is the larger of the old one and the end of the write, its old blocks stay first, and the clear bits drop by the blocks taken |
| `Operaciones.GuardarBloques` | FileSystem/fs.h:584-592 | the blocks a write adds come after those of the file, in increasing order and below every block left clear; no other bit changes |
| `Operaciones.CrearMasBajo` | FileSystem/fs.h:351-380 | a new file gets the lowest clear block alone |
| `Operaciones.GuardarRechazado` | FileSystem/fs.h:566-587 | a refused write changes nothing, and lack of room is reported exactly when the file's blocks and the clear bits together do not reach the end of the write |
| `Operaciones.FaltanMinimo` | FileSystem/fs.h:580-582 | the blocks asked for are the fewest that reach the end of the write |
| `Operaciones.GuardarSinHueco` | FileSystem/fs.h:563-606 | after a write every byte of the file is an old one or comes from the buffer if and only if the write starts at or below the end of the file |
| `Operaciones.ByteDelHueco` | FileSystem/fs.h:563-606 | otherwise a byte between the old end and the start of the write reads as what its block held before, block newly taken or not (with lines 496-545) |
| `Operaciones.ByteViejo` | FileSystem/fs.h:563-606 | one byte written at offset 1 of a new file makes offset 0 show the byte its block held before the file existed (with lines 351-380) |
| `Operaciones.LeerLoEscrito` | FileSystem/fs.h:563-607 | reading the range just written returns the buffer (with lines 496-545) |
| `Operaciones.LeerOtroArchivo` | FileSystem/fs.h:563-607 | a write, done or refused, changes no read of another file (with lines 496-545) |
| `Operaciones.BorrarDevuelve` | FileSystem/fs.h:405-440 | deleting gives back every block of the file and touches no byte |
| `Operaciones.CrearYBorrar` | FileSystem/fs.h:351-440 | a file can be created exactly when it is new and a block is left, and deleting it at once restores the disk |
| `Libretas.CorridaFiel` | FileSystem/FileSystem.c:144-216 | after any run the files, their sizes and block counts, the number of free blocks and every byte written since a file's creation are what notes taken from the requests alone say |
| `Libretas.CodigosDeUnaCorrida` | FileSystem/FileSystem.c:144-216 | from an empty disk, after any run, the code of every create, delete, read and write, lack of room included, follows from the requests alone |
| `Libretas.LecturasDeUnaCorrida` | FileSystem/FileSystem.c:144-216 | every read that succeeds returns each byte written since the file's creation as last written |
| `Libretas.CorridaCompleta` | FileSystem/FileSystem.c:144-216 | every byte of every file is known all along a run if and only if no write that is done starts beyond the end of its file |
| `Libretas.LecturasSinHuecos` | FileSystem/FileSystem.c:144-216 | over such runs every byte of every successful read is the one last written there |
| `Libretas.DiscoIndiferente` | FileSystem/FileSystem.c:144-216 | over such runs reads do not depend on what the blocks held before |
| `Libretas.ByteDeOtro` | FileSystem/FileSystem.c:144-216 | a run of five requests after which a file shows a byte of another, deleted before it was created |
| `FileSystem.PrimerBloqueLibre` | FileSystem/fs.h:214-222 | the loop answers the first clear bit or -1 |
| `FileSystem.CantidadBloquesLibres` | FileSystem/fs.h:547-556 | the loop counts the clear bits |
| `FileSystem.CleanBloques` | FileSystem/fs.h:405-411 | the bits of the file's blocks are cleared and no other |
| `FileSystem.ReadFromBlock` | FileSystem/fs.h:460-476 | the bytes of the range, in order |
| `FileSystem.WriteToBlock` | FileSystem/fs.h:478-493 | the block holds the buffer at the offset and its other bytes as before; no other block changes |
| `FileSystem.AgregarBloques` | FileSystem/fs.h:295-308 | the bitmap and the block list after taking the first clear bit n times (with lines 588-592) |
| `FileSystem.BloquesNecesarios` | FileSystem/fs.h:579-582 | the blocks missing to reach the last piece |
| `FileSystem.EscribirTrozos` | FileSystem/fs.h:594-602 | the block files after writing every piece in order |
| `FileSystem.LeerTrozos` | FileSystem/fs.h:523-539 | the pieces read and joined in order |
| `FileSystem.Fs.constructor` | FileSystem/FileSystem.c:105-128 | a fresh disk: every block file zeroed, every bit clear, no files |
| `FileSystem.Fs.CreateArchivo` | FileSystem/fs.h:351-380 | refused with no change when the file exists or no block is free; otherwise one block, size zero |
| `FileSystem.Fs.DeleteArchivo` | FileSystem/fs.h:412-440 | the file and its bits are gone; refused with no change when there is no file |
| `FileSystem.Fs.ObtenerDatos` | FileSystem/fs.h:496-545 | each error code in its order of tests, and otherwise 1 and the range of the file's flat array |
| `FileSystem.Fs.GuardarDatos` | FileSystem/fs.h:563-607 | each error code in its order of tests with no change, and otherwise 1 and the specified new state |
| `Pcb.DeVariable` | shared_libs/PCB.h:239-249 | a variable takes thirteen bytes |
| `Pcb.DeRegistro` | shared_libs/PCB.h:283-314 | a record's bytes are as many as the size pass adds for it (with lines 339-358) |
| `Pcb.DeStack` | shared_libs/PCB.h:339-358 | the stack's bytes are as many as the size pass adds up (with lines 434-436) |
| `Pcb.DePCB` | shared_libs/PCB.h:438-467 | a block's bytes are exactly the size the serializer and the sender compute beforehand (with lines 546-547) |
| `Formato.PalabraPequenia` | shared_libs/PCB.h:438-467 | a word lies least significant byte first |
| `Formato.EnteroEnPalabra` | shared_libs/PCB.h:549-551 | a negative code goes as its distance to 2^32 |
| `Formato.VariableEnBytes` | shared_libs/PCB.h:239-249 | name, offset, page and size of a variable, in that order |
| `Formato.RegistroEnBytes` | shared_libs/PCB.h:283-314 | counters, arguments, variables and return fields of a record, each at its offset |
| `Formato.SeccionesDePCB` | shared_libs/PCB.h:438-467 | every section of a block at the offset it is copied to |
| `Formato.CamposDePCB` | shared_libs/PCB.h:438-467 | every word of a block at its offset |
| `Pcb.LeerVariablesDe` | shared_libs/PCB.h:239-249 | a list of variables is read back whatever follows it (with lines 809-823) |
| `Pcb.LeerRegistroDe` | shared_libs/PCB.h:283-314 | a stack record is read back whatever follows it (with lines 794-871) |
| `Pcb.LeerPCBDe` | shared_libs/PCB.h:413-473 | for every block with any number of records, arguments and variables, reading its bytes followed by anything gives the block and leaves exactly what follows (with lines 732-891) |
| `Pcb.BytesDeterminanPCB` | shared_libs/PCB.h:413-473 | no two blocks have the same bytes, nor is one's a prefix of another's |
| `Pcb.LeerPCBMas` | shared_libs/PCB.h:732-891 | what follows a block is never part of how it is read, unless the block is cut short |
| `Pcb.BloqueCortado` | shared_libs/PCB.h:732-891 | no proper prefix of a block is ever received as a block, and with more bytes after it the reader takes some of them |
| `Pcb.LeerPCBsDe` | shared_libs/PCB.h:732-891 | blocks sent one after another are received in order and whole (with lines 539-559) |
| `Serializacion.Serializador.SerializarVariables` | shared_libs/PCB.h:239-249 | the thirteen bytes land after those already written, inside the buffer |
| `Serializacion.Serializador.SerializarElestac` | shared_libs/PCB.h:283-314 | the record's bytes land after those already written, and the cursor moves by the record's size |
| `Serializacion.Serializador.SumarTamanioRegistro` | shared_libs/PCB.h:339-358 | the size counter grows by the record's size, modulo 2^32 |
| `Serializacion.Serializador.PCBCereal` | shared_libs/PCB.h:425-468 | a new buffer of the computed size, every byte of it written, holding the block's bytes |
| `Serializacion.SendPCB` | shared_libs/PCB.h:539-559 | the message is the code and as many of the block's bytes as its size modulo 2^32: the whole block if and only if that size fits 32 bits |
| `Serializacion.Conexion.RecvVariables` | shared_libs/PCB.h:803-824 | the counted loop reads that many variables, or stops short with the stream |
| `Serializacion.Conexion.RecvRegistros` | shared_libs/PCB.h:792-875 | the counted loop reads that many records, or stops short with the stream |
| `Serializacion.Conexion.RecibirPCB` | shared_libs/PCB.h:732-891 | the block read field by field, and the connection left right after it |
| `Serializacion.EnviarYRecibir` | shared_libs/PCB.h:539-559 | code and block arrive as sent and the next message is untouched if and only if the block's size fits 32 bits (with lines 732-891) |
| `Pila.Avance` | CPU/CPU.c:125-129 | pages skipped times the page size plus what is left is the stack pointer, and what is left does not exceed a page |
| `Pila.AvanceNormal` | CPU/CPU.c:125-129 | the offset kept is below the page size if and only if the stack pointer is zero or no multiple of it |
| `Pila.OffsetDeUnaPagina` | CPU/CPU.c:117-179 | a run of definitions up to the first page boundary leaves a slot whose offset is a whole page |
| `Pila.Nueva` | CPU/CPU.c:154-174 | page and offset of a definition stand for the address it answers |
| `Pila.PosicionPrimera` | CPU/CPU.c:188-219 | a lookup answers the address of the first variable with the name, and -1 exactly when there is none |
| `Pila.PosicionAgregada` | CPU/CPU.c:160-170 | a definition is what a lookup finds only when the name had none before (with lines 188-219) |
| `Pila.DigitosSon` | CPU/CPU.c:160-170 | arguments are those named by one of the ten decimal digits |
| `Pila.DefinirInv` | CPU/CPU.c:117-179 | a definition keeps live slots apart, below the stack pointer and inside the stack, and lookups true to first definitions |
| `Pila.LlamarInv` | CPU/CPU.c:370-389 | a call keeps them so |
| `Pila.FinalizarInv` | CPU/CPU.c:391-409 | finishing a call takes back four bytes per variable without the unsigned counter wrapping, and every slot of the callers stays below the stack pointer (with lines 97-115) |
| `Pila.RanurasDisjuntas` | CPU/CPU.c:117-179 | after any run two live variables or arguments share no byte, and all lie below the stack pointer inside the stack (with lines 97-115, 370-409) |
| `Pila.BusquedasYPuntero` | CPU/CPU.c:117-220 | after any run a lookup answers what the first step that defined the name in the current call answered, and -1 if and only if no step did; the stack pointer is four times the live variables plus the steps that defined an argument (with lines 97-115, 370-409) |
| `Pila.NombresDe` | CPU/CPU.c:154-174 | in every call of the stack, a name is remembered as what the first step that defined it there answered |
| `Pila.RanurasEnPaginas` | CPU/CPU.c:117-179 | every slot of every run lies inside one page if and only if the page is a multiple of four bytes or the stack ends before its first slot across a boundary |
| `Pila.PunteroRestaurado` | CPU/CPU.c:97-115 | a stretch of a run that ends with the calls it began with restores the stack pointer if and only if no step of it defines an argument that fits; otherwise it leaves it four bytes higher for each |
| `Pila.PunteroPerdido` | CPU/CPU.c:97-115 | calling, defining one argument and coming back leaves the pointer four bytes higher (with lines 117-179) |
| `Pila.LlamarYFinalizar` | CPU/CPU.c:370-409 | an empty call restores the program counter and the stack, its record keeps the return address, and leaving the last call ends the program |
| `Pila.LlamadaVa` | CPU/CPU.c:370-389 | after any run a call sends control to its label, keeps the calls there were and holds the way back |
| `Pila.LlamadaVuelve` | CPU/CPU.c:370-409 | a call, any stretch that never leaves it and its end: control is back where it was and the calls there were hold what they held; the end of the outermost call ends the program |
| `Pila.DefinicionQuieta` | CPU/CPU.c:117-179 | a definition moves neither control nor the end of the program |
| `Pila.DefinicionSinLugar` | CPU/CPU.c:134-140 | a definition is answered -1 exactly when there is no room, and then no call and no pointer changes |
| `Pila.Banderas` | CPU/CPU.c:134-140 | over any run the memory exception is raised, with code -20, exactly when a definition found no room, and the program has ended exactly when the outermost call did (with lines 395-399) |
| `Procesador.Interprete.DefinirVariable` | CPU/CPU.c:117-179 | overflow sets the two flags, answers -1 and changes nothing else; otherwise the slot joins its list and the stack pointer moves by four |
| `Procesador.Interprete.ObtenerPosicionVariable` | CPU/CPU.c:180-220 | digits are looked up among arguments and the rest among variables of the current call |
| `Procesador.Interprete.LlamarConRetorno` | CPU/CPU.c:370-389 | a new empty record with the return position and address, and control at the label |
| `Procesador.Interprete.LiberarRegistroStack` | CPU/CPU.c:97-115 | four bytes back per variable and none per argument |
| `Procesador.Interprete.FinalizarContexto` | CPU/CPU.c:391-409 | the record leaves; the program ends with the last one and otherwise returns |
| `Planificador.CpuLibrePrimera` | Kernel/Kernel.c:1946-1958 | every processor before the one found is executing |
| `Planificador.CambiarSemEs` | Kernel/Kernel.c:552-560 | taking a semaphore out by name and adding it back keeps names distinct and finds it with its new fields (with lines 1629-1645) |
| `Planificador.CambiarSemMiembros` | Kernel/Kernel.c:552-560 | no other semaphore changes (with lines 1629-1645) |
| `Planificador.SinProcesoUno` | Kernel/Kernel.c:498-527 | a queue of one entry keeps it exactly when it is of another process |
| `Planificador.SinProcesoPartes` | Kernel/Kernel.c:498-527 | what one part of a queue keeps does not depend on the rest, nor does its place |
| `Planificador.TerminarSaca` | Kernel/Kernel.c:955-975 | a process that ends while listed as ready leaves the ready queue |
| `Turnos.AdmitirInv` | Kernel/Kernel.c:2097-2124 | a new script keeps every process in its one place (with lines 1963-2022) |
| `Turnos.CargarInv` | Kernel/Kernel.c:2036-2045 | so does loading the oldest waiting script |
| `Turnos.DespacharInv` | Kernel/Kernel.c:2048-2086 | so does dispatching the oldest ready process |
| `Turnos.RafagaInv` | Kernel/Kernel.c:3310-3374 | so does the end of a burst |
| `Turnos.EsperarInv` | Kernel/Kernel.c:3108-3190 | so does a wait: passing, blocking, or cancelled because the process could not be received (with lines 1629-1645) |
| `Turnos.AvisarInv` | Kernel/Kernel.c:621-660 | so does a signal, which wakes the process that blocked first (with lines 3233-3257) |
| `Turnos.TerminarInv` | Kernel/Kernel.c:3260-3307 | a process that ends is listed as executing or ready, never blocked, so its removal changes neither the ready queue nor a semaphore (with lines 530-538, 955-975) |
| `Turnos.ConectarInv` | Kernel/Kernel.c:2925-2937 | so does a new processor |
| `Turnos.AtenderInv` | Kernel/Kernel.c:3108-3374 | every message keeps the invariant of the kernel (with lines 2024-2124) |
| `Turnos.CorridaInv` | Kernel/Kernel.c:3108-3374 | the invariant holds after every run from startup (with lines 2024-2124) |
| `Historial.UnSoloLugar` | Kernel/Kernel.c:2024-2124 | after any run a process is in one of the new queue, ready queue, a processor, a semaphore queue or the exit queue if and only if it was created and the message that loaded it was not answered 0 pages; it is in one of them only; no queue holds a process twice (with lines 3108-3374) |
| `Historial.EnNingunLugar` | Kernel/Kernel.c:1977-2019 | from startup, one script memory answers 0 pages for is a process created and in no place (with lines 2097-2124) |
| `Historial.PasoPerdido` | Kernel/Kernel.c:1977-2019 | only an answer of 0 pages leaves a process in no place, and nothing brings it back |
| `Historial.MarcaDeProceso` | Kernel/Kernel.c:2024-2124 | what the invariant remembers of a process is told by the messages of the run (with lines 3108-3374) |
| `Turnos.Multiprogramacion` | Kernel/Kernel.c:1963-2046 | the counter of current processes is ready plus running plus blocked and never exceeds the configured degree (with lines 530-538, 2104) |
| `Historial.Semaforos` | Kernel/Kernel.c:3108-3190 | at every semaphore, counting the waits and signals among the messages: the value is the configured one less the waits not cancelled plus the signals; blocked processes are as many as it is below zero and wake in the order they blocked; completed waits never exceed the configured value plus the signals, and match it while anyone is blocked (with lines 621-660, 1629-1645) |
| `Historial.MarcaDeSemaforo` | Kernel/Kernel.c:621-660 | so is what it remembers of a semaphore; no message adds a semaphore or takes one away (with lines 1629-1645, 3108-3190) |
| `Historial.OrdenDeLlegada` | Kernel/Kernel.c:2048-2088 | those who entered the ready queue by the messages are those dispatched followed by those in it, in order (with lines 650, 1986, 3342) |
| `Historial.OrdenDeScripts` | Kernel/Kernel.c:2036-2045 | the scripts that found the degree reached are, in the order they arrived, those passes asked memory to load followed by those waiting; process numbers count the scripts (with lines 2104-2120) |
| `Historial.CargaElMasViejo` | Kernel/Kernel.c:2036-2045 | in every reachable state the waiting scripts are in the order they were created, and a pass with room takes the oldest and no other |
| `Historial.OrdenDeSalida` | Kernel/Kernel.c:955-975 | the exit queue holds those who ended or were refused, in the order they did (with lines 1977-2019) |
| `Historial.OrdenDeProcesadores` | Kernel/Kernel.c:2925-2937 | processors are listed in the order they arrived |
| `Historial.DespachaEnElPrimero` | Kernel/Kernel.c:2047-2089 | a pass dispatches nobody exactly when nobody is ready or every processor is executing, and otherwise to the first one that is not |
| `Historial.MarcaDeFila` | Kernel/Kernel.c:650 | so is what it remembers of the ready queue (with lines 1986, 2061, 3342) |
| `Historial.EstadoEnCpu` | Kernel/Kernel.c:2061-2078 | the process list shows a running process as executing if and only if no message of the run took it off a processor, and as ready otherwise (with lines 636, 3335) |
| `Historial.EstadoFueraDeCpu` | Kernel/Kernel.c:1977-2019 | a process that is not running is listed by the place it is in, and one answered 0 pages as new (with lines 3143-3190) |
| `Historial.ListadoComoListo` | Kernel/Kernel.c:2061-2078 | five messages from startup leave a process running that the process list shows as ready (with lines 3335-3336) |
| `Nucleo.RemovePCBFromSpecificQueue` | Kernel/Kernel.c:498-527 | the queue without the process, in the same order |
| `Nucleo.Supervisor.EstaEnUso` | Kernel/Kernel.c:1930-1944 | true exactly when the socket is in the executing list |
| `Nucleo.Supervisor.BuscarCpuLibre` | Kernel/Kernel.c:1946-1958 | the first processor not executing, or the number of processors |
| `Nucleo.Supervisor.BuscarConexionDeCpu` | Kernel/Kernel.c:699-710 | the position of the socket in the list of processors |
| `Nucleo.Supervisor.GuardadoEnMemoria` | Kernel/Kernel.c:1977-2019 | ready and counted for a positive answer, exit for a negative one, and no queue for zero |
| `Nucleo.Supervisor.ManejadorDeScripts` | Kernel/Kernel.c:2097-2124 | a new process loaded below the degree and queued as new otherwise |
| `Nucleo.Supervisor.PasarDeNewAReady` | Kernel/Kernel.c:2036-2046 | the oldest new process, only below the degree |
| `Nucleo.Supervisor.PasarDeReadyAExec` | Kernel/Kernel.c:2047-2089 | the oldest ready process on the first free processor |
| `Nucleo.Supervisor.Planificacion` | Kernel/Kernel.c:2030-2091 | both halves in turn |
| `Nucleo.Supervisor.WaitSemaforo` | Kernel/Kernel.c:1637-1645 | the value drops by one and is answered |
| `Nucleo.Supervisor.CancelarWait` | Kernel/Kernel.c:1629-1635 | the value goes back up |
| `Nucleo.Supervisor.AtenderWait` | Kernel/Kernel.c:3108-3190 | below zero the process leaves its processor for the end of the semaphore's queue, or the wait is cancelled |
| `Nucleo.Supervisor.AtenderSignal` | Kernel/Kernel.c:621-660 | the value rises and the first blocked process, if any, goes to the end of the ready queue (with lines 3233-3257) |
| `Nucleo.Supervisor.EndProcess` | Kernel/Kernel.c:955-975 | queues, count and state of a process that ends |
| `Nucleo.Supervisor.AtenderFinDeProceso` | Kernel/Kernel.c:3260-3307 | the processor is free and the process is in the exit queue |
| `Nucleo.Supervisor.AtenderFinDeRafaga` | Kernel/Kernel.c:3310-3374 | the processor is free and the process is at the end of the ready queue |
| `Nucleo.Supervisor.Recibir` | Kernel/Kernel.c:2919-3374 | any admissible message keeps the invariant and moves processes as specified |

## Left out

- The cross-page branch of `lecturaV2` (Memoria/Memoria.c:897-922), which reads the next physical frame and caches without looking for a duplicate.
- The contiguous allocator `buscar_espacio` and its stack helper (Memoria/Memoria.c:537-563, 633-686), whose caller is commented out.
- Overflow of the LRU ages, which are unbounded naturals here, and of the 32-bit sums and products of offsets and sizes in the file system.
- `atoi` on a concatenation of pid and page that does not fit an `int`, and the 20-character buffers it is built in.
- The two cache arrays share one region of contents in the original; here each line has its own stretch of one array and its index stands for the pointer.
- `Metadatos.IntToStr`: not stated beyond 2^24, where single-precision quotients are no longer exact.
- Metadata that lacks its two properties, block files that cannot be opened, directories, and the commons configuration format; a file's metadata is its size and list of blocks.
- A number of blocks that is not a multiple of eight, for which the bitmap file has fewer bits than there are block files.
- The operating system calls: sockets, `select`, `mmap`, delays, logging, configuration, consoles and their menus, and the commons list, queue and bit-array libraries, which are sequences, maps and boolean arrays here.
- The first version of the block's wire format, the message that carries a script to memory, and streams cut short other than as a failed read.
- Primitives of the interpreter that only send messages; labels and return addresses arrive as parameters of a call.
- Kills, aborts and disconnects of consoles and processors, with `remove_from_semaphore`, which wakes a second process; the handlers' branches for a process marked for deletion or a semaphore that does not exist.
- The kernel's execution queue, console list, statistics and reclaiming of old blocks, its walk over heap pages (Kernel/Kernel.c:1701-1927) and its tables of open files (Kernel/Kernel.c:772-880, 2195-2650).
- Races between the kernel's threads: the check of the multiprogramming degree and the count that follows are one step.
- `Historial.UnSoloLugar`: a script memory answers 0 pages for stays in no queue, as in the code; the memory server answers at least one page or a negative number.
- `Abstracta.RespuestaUnica`: the plain machine leaves open what the bytes of a new page were before (`Contraejemplos.BytesAjenos`), so over a run only bytes written are fixed (`Persistencia.LecturaDeLoEscrito`); the address a new process is answered depends on frames, which that machine does not name (`Colocacion.DireccionDeNuevo`).
- `Corridas.CorridaEdades`: the quota is stated for runs that free no page, since freeing one can break it later (`Contraejemplos.CuotaExcedida`); `Cache.AccederCuotaExacta` says at which access.
- `Modelo.LecturaTransparente`: for accesses inside one page.
- `Modelo.EscrituraTransparente`: for accesses inside one page.
- `Servidor.Memoria.Lectura`: for accesses inside one page.
- `Servidor.Memoria.Escritura`: for accesses inside one page.
- `Servidor.Memoria.Alocar`: for processes whose pages are contiguous heap pages from the given one on, which `HeapDeProceso.CorridaHeap` shows their own requests keep.
