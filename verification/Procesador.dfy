/** The primitives of the interpreter that update the control block in place. */
module Procesador {
  import opened Bytes
  import opened Pcb
  import opened Pila

  class Interprete {
    const config: Config
    var stackIndex: seq<RegistroStack>
    var stackPointer: nat
    var programCounter: Palabra
    var programaTerminado: bool
    var excepcionMemoria: bool
    var codigoError: int

    function Vista(): Cpu
      reads this
    {
      Cpu(stackIndex, stackPointer, programCounter, programaTerminado, excepcionMemoria, codigoError)
    }

    constructor (config: Config)
      ensures this.config == config && Vista() == Cpu([], 0, 0, false, false, 0)
    {
      this.config := config;
      stackIndex, stackPointer, programCounter := [], 0, 0;
      programaTerminado, excepcionMemoria, codigoError := false, false, 0;
    }

    /** `nuevo` is what a record fresh from `malloc` holds. */
    method DefinirVariable(id: Byte) returns (posicion: int, ghost nuevo: RegistroStack)
      requires ConfigValida(config)
      modifies this
      ensures (Vista(), posicion) == old(Definir(config, Vista(), id, nuevo))
    {
      hide Base, Tope;
      var varPagina: int := config.primerPagina;
      var varOffset := stackPointer;
      ghost var vueltas := 0;
      while varOffset > config.tamanioPagina
        invariant 0 <= varOffset && vueltas >= 0 && varPagina == config.primerPagina + vueltas
        invariant Avance(config.tamanioPagina, stackPointer)
               == (vueltas + Avance(config.tamanioPagina, varOffset).0, Avance(config.tamanioPagina, varOffset).1)
      {
        varPagina := varPagina + 1;
        varOffset := varOffset - config.tamanioPagina;
        vueltas := vueltas + 1;
      }
      var basura: RegistroStack := *;
      nuevo := basura;
      if stackPointer + 4 > config.tamanioStack * config.tamanioPagina {
        assert stackPointer + 4 > Tope(config) by {
          TopeEs(config);
        }
        excepcionMemoria := true;
        codigoError := -20;
        return -1, nuevo;
      }
      TopeEs(config);
      CabeEnPalabra(config, stackPointer);
      hide Avance;
      if stackIndex == [] {
        stackIndex := [basura.(args := [], vars := [])];
      }
      var ultimo := |stackIndex| - 1;
      var regStack := stackIndex[ultimo];
      var newVar := Variable(id, varPagina, varOffset, 4);
      if 48 <= id <= 57 {
        regStack := regStack.(args := regStack.args + [newVar]);
      } else {
        regStack := regStack.(vars := regStack.vars + [newVar]);
      }
      stackIndex := stackIndex[ultimo := regStack];
      posicion := config.primerPagina * config.tamanioPagina + stackPointer;
      stackPointer := stackPointer + 4;
    }

    /** Walks the list of the current call until the name turns up. */
    method ObtenerPosicionVariable(id: Byte) returns (posicion: int)
      requires stackIndex != []
      ensures posicion == ObtenerPosicion(config, Vista(), id)
    {
      var registroActual := stackIndex[|stackIndex| - 1];
      var lista := if 48 <= id <= 57 then registroActual.args else registroActual.vars;
      assert lista[0..] == lista;
      hide Posicion;
      for i := 0 to |lista|
        invariant Posicion(config, lista[i..], id) == Posicion(config, lista, id)
      {
        if lista[i].id == id {
          return lista[i].page * config.tamanioPagina + lista[i].offset;
        }
      }
      return -1;
    }

    /** `destino` is where the label table sends the call. */
    method LlamarConRetorno(destino: Palabra, dondeRetornar: Palabra)
      requires ConfigValida(config)
      modifies this
      ensures Vista() == old(Llamar(config, Vista(), destino, dondeRetornar))
    {
      var retVar := PagOffSize(dondeRetornar / config.tamanioPagina, dondeRetornar % config.tamanioPagina, 4);
      var nuevoReg := RegistroStack([], [], programCounter, retVar);
      stackIndex := stackIndex + [nuevoReg];
      programCounter := destino;
    }

    /** Gives back four bytes per variable, one at a time, in the unsigned word of the original. */
    method LiberarRegistroStack(registro: RegistroStack)
      modifies this`stackPointer
      ensures stackPointer == Resta4(old(stackPointer), |registro.vars|)
    {
      var vars := registro.vars;
      for i := 0 to |registro.vars|
        invariant |vars| == |registro.vars| - i
        invariant Resta4(stackPointer, |registro.vars| - i) == Resta4(old(stackPointer), |registro.vars|)
      {
        vars := vars[1..];
        stackPointer := (stackPointer - 4) % TOPE32;
      }
    }

    method FinalizarContexto()
      requires stackIndex != []
      modifies this
      ensures Vista() == old(Finalizar(Vista()))
    {
      var n := |stackIndex| - 1;
      var registroActual := stackIndex[n];
      stackIndex := stackIndex[..n];
      if |stackIndex| == 0 {
        programaTerminado := true;
      } else {
        programCounter := registroActual.retPos;
      }
      LiberarRegistroStack(registroActual);
    }
  }

  lemma TopeEs(c: Config)
    ensures Tope(c) == c.tamanioStack * c.tamanioPagina && Base(c) == c.primerPagina * c.tamanioPagina
  {
  }
}
