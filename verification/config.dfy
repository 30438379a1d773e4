/** The operator's configuration constants (the `config` package and the
    build version), whose concrete values are not part of this model. They are
    carried as one record of opaque strings; `Distinct` states the only fact
    the code relies on: the names used as `switch` cases are pairwise
    different (Go rejects duplicate constant cases). */
module Config {

  datatype Constants = Constants(
    productName: string,
    operatorName: string,       // config.Name
    version: string,            // csiversion.Version
    csiController: string,      // config.CSIController.String()
    csiNode: string,            // config.CSINode.String()
    controllerImage: string,
    nodeImage: string,
    csiAttacher: string,
    csiProvisioner: string,
    csiNodeDriverRegistrar: string,
    livenessProbe: string,
    openShift: string,
    kubernetes: string,
    controllerRepository: string,
    controllerTag: string,
    nodeRepository: string,
    nodeTag: string,
    csiProvisionerImage: string,
    csiAttacherImage: string,
    nodeDriverRegistrarImage: string,
    csiLivenessProbeImage: string,
    openShiftControllerRepository: string,
    openShiftNodeRepository: string,
    openShiftCSIProvisionerImage: string,
    openShiftCSIAttacherImage: string,
    openShiftNodeDriverRegistrarImage: string,
    openShiftCSILivenessProbeImage: string)

  /** The six names a default image can be looked up by. */
  function ImageNames(k: Constants): set<string> {
    {k.controllerImage, k.nodeImage, k.csiProvisioner, k.csiAttacher,
     k.csiNodeDriverRegistrar, k.livenessProbe}
  }

  /** The case labels of every `switch` over these constants are pairwise
      different, and so are the two component names. */
  predicate Distinct(k: Constants) {
    && k.controllerImage != k.nodeImage
    && k.controllerImage != k.csiProvisioner
    && k.controllerImage != k.csiAttacher
    && k.controllerImage != k.csiNodeDriverRegistrar
    && k.controllerImage != k.livenessProbe
    && k.nodeImage != k.csiProvisioner
    && k.nodeImage != k.csiAttacher
    && k.nodeImage != k.csiNodeDriverRegistrar
    && k.nodeImage != k.livenessProbe
    && k.csiProvisioner != k.csiAttacher
    && k.csiProvisioner != k.csiNodeDriverRegistrar
    && k.csiProvisioner != k.livenessProbe
    && k.csiAttacher != k.csiNodeDriverRegistrar
    && k.csiAttacher != k.livenessProbe
    && k.csiNodeDriverRegistrar != k.livenessProbe
    && k.openShift != k.kubernetes
    && k.csiController != k.csiNode
  }
}
