/** The host definition the client works with (struct dcc_hostdef). The
    linked list of hosts becomes a sequence of references; the fields the
    client rewrites after the list has been read (where preprocessing
    happens and the protocol version that follows from it) are variables,
    the rest are fixed when the list is parsed. */
module Hosts {

  datatype Mode = Tcp | Ssh | LocalMode

  /** enum dcc_cpp_where: who runs the preprocessor. */
  datatype CppWhere = OnClient | OnServer

  class HostDef {
    const mode: Mode
    const hostname: string
    const nSlots: int
    const hostdefString: string
    /** enum dcc_compress, kept as its numeric code. */
    const compr: int
    /** enum dcc_protover, kept as its numeric code. */
    var protover: int
    var cppWhere: CppWhere

    constructor (mode: Mode, hostname: string, nSlots: int, hostdefString: string,
                 compr: int, protover: int, cppWhere: CppWhere)
      ensures this.mode == mode && this.hostname == hostname && this.nSlots == nSlots
      ensures this.hostdefString == hostdefString && this.compr == compr
      ensures this.protover == protover && this.cppWhere == cppWhere
    {
      this.mode := mode;
      this.hostname := hostname;
      this.nSlots := nSlots;
      this.hostdefString := hostdefString;
      this.compr := compr;
      this.protover := protover;
      this.cppWhere := cppWhere;
    }
  }

  /** dcc_get_protover_from_features lives in hosts.c, which is not part of
      this model: callers receive it as a function of (compression, where
      preprocessing happens). */
  type ProtoverOf = (int, CppWhere) -> int
}
